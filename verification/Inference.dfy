/**
 The one-hidden-layer network: matrix-vector products by diagonals over packed slots.
 */
module Inference {
  import opened Packed
  import opened Wrappers

  type Matrix = seq<seq<real>>

  ghost predicate Dims(m: Matrix, rows: nat, cols: nat) {
    |m| == rows && forall i :: 0 <= i < rows ==> |m[i]| == cols
  }

  /** The first count terms of row i of M times x. */
  function RowDot(m: Matrix, x: Slots, i: nat, count: nat): real
    requires i < |m| && count <= |m[i]| && count <= |x|
  {
    if count == 0 then 0.0 else RowDot(m, x, i, count - 1) + m[i][count - 1] * x[count - 1]
  }

  /** The terms that slot i sums: M[i][j] * x[j] in column j, and zero outside the matrix. */
  function Terms(m: Matrix, x: Slots, rows: nat, cols: nat, i: nat): (t: Slots)
    requires Dims(m, rows, cols)
    ensures |t| == |x|
  {
    seq(|x|, j requires 0 <= j < |x| => if i < rows && j < cols then m[i][j] * x[j] else 0.0)
  }

  /** Diagonal d of the matrix embedded in slots x slots. */
  function Diagonal(m: Matrix, rows: nat, cols: nat, d: nat, slots: nat): (diag: Slots)
    requires Dims(m, rows, cols) && slots > 0
    ensures |diag| == slots
  {
    seq(slots, i requires 0 <= i < slots =>
      var j := (i + d) % slots; if i < rows && j < cols then m[i][j] else 0.0)
  }

  /** Filling the diagonal, as the inner loop does. */
  method FillDiagonal(m: Matrix, rows: nat, cols: nat, d: nat, slots: nat) returns (diag: Slots)
    requires Dims(m, rows, cols) && rows <= slots && slots > 0
    ensures diag == Diagonal(m, rows, cols, d, slots)
  {
    var a := new real[slots](_ => 0.0);
    for i := 0 to rows
      invariant forall k :: 0 <= k < slots ==> a[k] == if k < i then Diagonal(m, rows, cols, d, slots)[k] else 0.0
    {
      var j := (i + d) % slots;
      if j < cols {
        a[i] := m[i][j];
      }
    }
    diag := a[..];
  }

  function Around(i: nat, n: nat): (j: nat)
    requires n > 0
    ensures j < n
  {
    i % n
  }

  function EntryOr0(m: Matrix, rows: nat, cols: nat, i: nat, j: nat): real
    requires Dims(m, rows, cols)
  {
    if i < rows && j < cols then m[i][j] else 0.0
  }

  lemma RotEntry(x: Slots, d: nat, i: nat)
    requires i < |x|
    ensures Rot(x, d)[i] == x[Around(i + d, |x|)]
  {
    AtRot(x, d, i);
    AtInside(Rot(x, d), i);
  }

  lemma DiagonalEntry(m: Matrix, rows: nat, cols: nat, d: nat, slots: nat, i: nat)
    requires Dims(m, rows, cols) && i < slots
    ensures Diagonal(m, rows, cols, d, slots)[i] == EntryOr0(m, rows, cols, i, Around(i + d, slots))
  {}

  lemma TermEntry(m: Matrix, x: Slots, rows: nat, cols: nat, i: nat, k: nat)
    requires Dims(m, rows, cols) && x != []
    ensures At(Terms(m, x, rows, cols, i), k)
         == EntryOr0(m, rows, cols, i, Around(k, |x|)) * x[Around(k, |x|)]
  {}

  lemma Commutes(a: real, b: real)
    ensures a * b == b * a && a * 0.0 == 0.0
  {}

  /** Slot i of rotation d times diagonal d is the term in column i + d. */
  lemma DiagonalTerm(m: Matrix, x: Slots, rows: nat, cols: nat, d: nat, i: nat)
    requires Dims(m, rows, cols) && i < |x|
    ensures Mul(Rot(x, d), Diagonal(m, rows, cols, d, |x|))[i] == At(Terms(m, x, rows, cols, i), i + d)
  {
    hide Rot, Diagonal, Terms, At;
    var j := Around(i + d, |x|);
    RotEntry(x, d, i);
    DiagonalEntry(m, rows, cols, d, |x|, i);
    TermEntry(m, x, rows, cols, i, i + d);
    Commutes(x[j], EntryOr0(m, rows, cols, i, j));
  }

  /** A sum over a whole cycle is the sum from slot zero. */
  lemma CycleSum(x: Slots, i: nat)
    requires x != []
    ensures Window(x, i, 1, |x|) == Window(x, 0, 1, |x|)
  {
    WindowTurns(x, 0, 1, |x|, i);
    assert 0 + 1 * i == i && 1 * |x| == |x|;
  }

  lemma TermAt(m: Matrix, x: Slots, rows: nat, cols: nat, i: nat, j: nat)
    requires Dims(m, rows, cols) && j < |x|
    ensures Terms(m, x, rows, cols, i)[j] == if i < rows && j < cols then m[i][j] * x[j] else 0.0
  {}

  lemma {:induction false} TermsSum(m: Matrix, x: Slots, rows: nat, cols: nat, i: nat, count: nat)
    requires Dims(m, rows, cols) && cols <= |x| && count <= |x| && x != []
    ensures Window(Terms(m, x, rows, cols, i), 0, 1, count)
         == if i < rows then RowDot(m, x, i, if count < cols then count else cols) else 0.0
  {
    hide Terms, At, Window;
    var t := Terms(m, x, rows, cols, i);
    if count > 0 {
      TermsSum(m, x, rows, cols, i, count - 1);
      WindowNext(t, 0, count - 1);
      AtInside(t, count - 1);
      TermAt(m, x, rows, cols, i, count - 1);
    } else {
      WindowNext(t, 0, 0);
    }
  }

  ghost predicate AllRotations(keys: seq<int>, slots: nat) {
    forall d: int :: 0 <= d < slots ==> d in keys
  }

  /** app_inference_gen_keys: a key for every rotation that the products use. */
  method GenRotationKeys(slots: nat) returns (keys: seq<int>)
    ensures AllRotations(keys, slots) && |keys| == slots
  {
    keys := seq(slots, i => i);
    forall d: int | 0 <= d < slots
      ensures d in keys
    {
      assert keys[d] == d;
    }
  }

  /**
   diagonal_matvec: M times x in the first slots, zero behind them, for every rectangular
   matrix that fits; slots of x behind the columns do not matter.
   */
  method DiagonalMatvec(x: Slots, m: Matrix, rows: nat, cols: nat, ghost keys: seq<int>) returns (acc: Slots)
    requires Dims(m, rows, cols) && rows <= |x| && cols <= |x| && x != [] && AllRotations(keys, |x|)
    ensures |acc| == |x|
    ensures forall i :: 0 <= i < |x| ==> acc[i] == if i < rows then RowDot(m, x, i, cols) else 0.0
  {
    hide Window, RowDot, Terms, Diagonal, Rot, Mul, At;
    acc := [];
    for d := 0 to |x|
      invariant d > 0 ==> |acc| == |x|
      invariant d > 0 ==> forall i :: 0 <= i < |x| ==> acc[i] == Window(Terms(m, x, rows, cols, i), i, 1, d)
    {
      var diag := FillDiagonal(m, rows, cols, d, |x|);
      var term := Mul(EvalRotate(x, d, keys), diag);
      ghost var before := acc;
      acc := if d == 0 then term else Add(acc, term);
      forall i | 0 <= i < |x|
        ensures acc[i] == Window(Terms(m, x, rows, cols, i), i, 1, d + 1)
      {
        DiagonalTerm(m, x, rows, cols, d, i);
        WindowNext(Terms(m, x, rows, cols, i), i, d);
      }
    }
    forall i | 0 <= i < |x|
      ensures acc[i] == if i < rows then RowDot(m, x, i, cols) else 0.0
    {
      CycleSum(Terms(m, x, rows, cols, i), i);
      TermsSum(m, x, rows, cols, i, |x|);
    }
  }

  lemma WindowNext(x: Slots, i: nat, d: nat)
    requires x != []
    ensures Window(x, i, 1, 0) == 0.0
    ensures Window(x, i, 1, d + 1) == Window(x, i, 1, d) + At(x, i + d)
  {
    assert 1 * d == d;
  }

  /** The product reads only the slots that a column belongs to. */
  lemma {:induction false} RowDotPrefix(m: Matrix, x: Slots, y: Slots, i: nat, count: nat)
    requires i < |m| && count <= |m[i]| && count <= |x| && count <= |y|
    requires forall j :: 0 <= j < count ==> x[j] == y[j]
    ensures RowDot(m, x, i, count) == RowDot(m, y, i, count)
  {
    if count > 0 {
      RowDotPrefix(m, x, y, i, count - 1);
    }
  }

  // ---------- The network ----------

  datatype Weights = Weights(w1: Matrix, b1: seq<real>, w2: Matrix, b2: seq<real>)

  /** 0.5 * t * (1 + t) */
  function F(t: real): real {
    0.5 * t * (1.0 + t)
  }

  /** The hidden layer, in plain terms. */
  function Hidden(w: Weights, x: Slots, inDim: nat): (h: seq<real>)
    requires Dims(w.w1, |w.b1|, inDim) && inDim <= |x|
    ensures |h| == |w.b1|
  {
    seq(|w.b1|, i requires 0 <= i < |w.b1| => F(RowDot(w.w1, x, i, inDim) + w.b1[i]))
  }

  /** W2 * f(W1 * x + b1) + b2 */
  function Mlp(w: Weights, x: Slots, inDim: nat): (o: seq<real>)
    requires Dims(w.w1, |w.b1|, inDim) && inDim <= |x| && Dims(w.w2, |w.b2|, |w.b1|)
    ensures |o| == |w.b2|
  {
    seq(|w.b2|, i requires 0 <= i < |w.b2| => RowDot(w.w2, Hidden(w, x, inDim), i, |w.b1|) + w.b2[i])
  }

  /** Two inputs, one hidden value F(6) = 21 and two outputs. */
  lemma NetworkByHand()
    ensures Mlp(Weights([[1.0, 2.0]], [3.0], [[2.0], [-1.0]], [1.0, 0.5]), [1.0, 1.0, 9.0], 2) == [43.0, -20.5]
  {
    var w, x := Weights([[1.0, 2.0]], [3.0], [[2.0], [-1.0]], [1.0, 0.5]), [1.0, 1.0, 9.0];
    assert RowDot(w.w1, x, 0, 2) == 3.0;
    assert Hidden(w, x, 2) == [21.0];
    assert RowDot(w.w2, [21.0], 0, 1) == 42.0 && RowDot(w.w2, [21.0], 1, 1) == -21.0;
  }

  function PadTo(v: seq<real>, n: nat): (r: Slots)
    requires |v| <= n
    ensures |r| == n
  {
    seq(n, i requires 0 <= i < n => if i < |v| then v[i] else 0.0)
  }

  /**
   app_inference_eval: the first slots of the output are the network's output. In the
   source there are 128 slots and inputs, 64 hidden values and 10 outputs.
   */
  method AppInferenceEval(inputs: seq<Slots>, w: Weights, inDim: nat, ghost keys: seq<int>) returns (r: Outcome<Slots>)
    requires forall i :: 0 <= i < |inputs| ==> AllRotations(keys, |inputs[i]|)
    requires forall i :: 0 <= i < |inputs| ==>
      |inputs[i]| > 0 && |w.b1| <= |inputs[i]| && |w.b2| <= |inputs[i]| && inDim <= |inputs[i]|
    requires Dims(w.w1, |w.b1|, inDim) && Dims(w.w2, |w.b2|, |w.b1|)
    ensures r.WrongInputCount? <==> |inputs| != 1
    ensures r.Ok? ==> |inputs| == 1 && |r.value| == |inputs[0]| && r.value[..|w.b2|] == Mlp(w, inputs[0], inDim)
    ensures r.Ok? ==> forall i :: |w.b2| <= i < |r.value| ==> r.value[i] == 0.0
  {
    hide RowDot;
    if |inputs| != 1 {
      return WrongInputCount;
    }
    var x := inputs[0];
    var t := DiagonalMatvec(x, w.w1, |w.b1|, inDim, keys);
    t := Add(t, PadTo(w.b1, |x|));
    var onePlusT := Add(t, seq(|x|, _ => 1.0));
    var tTimes1pT := Mul(t, onePlusT);
    var act := Mul(tTimes1pT, seq(|x|, _ => 0.5));
    forall i | 0 <= i < |w.b1|
      ensures act[i] == Hidden(w, x, inDim)[i]
    {
      Factored(t[i]);
    }
    var out := DiagonalMatvec(act, w.w2, |w.b2|, |w.b1|, keys);
    out := Add(out, PadTo(w.b2, |x|));
    forall i | 0 <= i < |w.b2|
      ensures out[i] == Mlp(w, x, inDim)[i]
    {
      RowDotPrefix(w.w2, act, Hidden(w, x, inDim), i, |w.b1|);
    }
    r := Ok(out);
  }

  lemma Factored(t: real)
    ensures t * (t + 1.0) * 0.5 == F(t)
  {}
}
