/**
 Encrypted logistic regression: the packed training loop over rows x cols slots is one
 step of plain gradient descent per iteration.
 */
module Logistic {
  import opened Bits
  import opened Packed
  import opened Wrappers
  import Cascade

  // ---------- The packing ----------

  /** rows * cols slots, row by row. */
  datatype Layout = Layout(rows: nat, cols: nat) {
    ghost predicate Ok() {
      IsPow2(rows) && IsPow2(cols)
    }
  }

  ghost predicate Shaped(l: Layout, x: Slots) {
    l.Ok() && |x| == l.rows * l.cols && x != []
  }

  /** Slot (row r, column c); rows may be counted around the vector. */
  function Cell(l: Layout, x: Slots, r: int, c: nat): real
    requires x != []
  {
    At(x, r * l.cols + c)
  }

  /** Weights in every row. */
  ghost predicate Replicated(l: Layout, x: Slots, w: seq<real>) {
    Shaped(l, x) && |w| == l.cols && forall r: int, c: nat :: c < l.cols ==> Cell(l, x, r, c) == w[c]
  }

  /** Values in column 0 only. */
  ghost predicate FirstColumn(l: Layout, x: Slots) {
    Shaped(l, x) && forall r: int, c: nat :: 0 < c < l.cols ==> Cell(l, x, r, c) == 0.0
  }

  lemma Pow2Positive(k: nat)
    requires IsPow2(k)
    ensures k > 0
  {}

  /** Every slot is a cell. */
  lemma CellOf(l: Layout, i: int) returns (r: int, c: nat)
    requires l.cols > 0
    ensures i == r * l.cols + c && c < l.cols
  {
    r, c := i / l.cols, i % l.cols;
  }

  // ---------- The masks and the activation ----------

  /** A plaintext of cols slots with one value in slot 0, repeated in every row. */
  function Mask(l: Layout, v: real): (m: Slots)
    ensures |m| == l.rows * l.cols
  {
    seq(l.rows * l.cols, i requires 0 <= i < l.rows * l.cols => if l.cols > 0 && i % l.cols == 0 then v else 0.0)
  }

  lemma MaskCell(l: Layout, v: real, r: int, c: nat)
    requires l.rows > 0 && l.cols > 0 && c < l.cols
    ensures Mask(l, v) != [] && Cell(l, Mask(l, v), r, c) == if c == 0 then v else 0.0
  {
    var n := l.rows * l.cols;
    assert n > 0 by { MulAtLeast(l.rows, l.cols); }
    var i := r * l.cols + c;
    var q, k := i / n, i % n;
    assert i == n * q + k;
    assert n * q == l.cols * (l.rows * q);
    assert l.cols * (r - l.rows * q) == l.cols * r - l.cols * (l.rows * q);
    ModMultiple(c, r - l.rows * q, l.cols);
    DivModUnique(c, l.cols, 0, c);
  }

  /** p(z) = 0.5 + 0.15 z - 0.0015 z^3 */
  function Poly(z: real): real {
    0.5 + 0.15 * z - 0.0015 * (z * z * z)
  }

  /** activation: the polynomial in slot 0 of each row, zero elsewhere. */
  method Activation(l: Layout, ct0: Slots) returns (ct: Slots)
    requires Shaped(l, ct0)
    ensures Shaped(l, ct)
    ensures forall r: int, c: nat :: c < l.cols ==>
      Cell(l, ct, r, c) == if c == 0 then Poly(Cell(l, ct0, r, 0)) else 0.0
  {
    hide Mask, Poly;
    var ct3 := Mul(ct0, ct0);
    var aux := Mul(ct0, Mask(l, -0.0015));
    ct3 := Mul(ct3, aux);
    ct := Mul(ct0, Mask(l, 0.15));
    ct := Add(ct, ct3);
    ct := Add(ct, Mask(l, 0.5));
    forall r: int, c: nat | c < l.cols
      ensures Cell(l, ct, r, c) == if c == 0 then Poly(Cell(l, ct0, r, 0)) else 0.0
    {
      Pow2Positive(l.rows);
      MaskCell(l, -0.0015, r, c);
      MaskCell(l, 0.15, r, c);
      MaskCell(l, 0.5, r, c);
      PolyByMasks(Cell(l, ct0, r, c));
    }
  }

  lemma PolyByMasks(z: real)
    ensures z * 0.15 + z * z * (z * -0.0015) + 0.5 == Poly(z)
    ensures z * 0.0 + z * z * (z * 0.0) + 0.0 == 0.0
  {
    assert z * (z * z) == z * z * z;
  }

  // ---------- Row sums ----------

  /** The first count terms of x_r . w */
  function Dot(l: Layout, data: Slots, w: seq<real>, r: int, count: nat): real
    requires data != [] && count <= |w|
  {
    if count == 0 then 0.0 else Dot(l, data, w, r, count - 1) + Cell(l, data, r, count - 1) * w[count - 1]
  }

  /** row_accumulate puts the dot product of each row into its first slot. */
  lemma {:induction false} RowSum(l: Layout, data: Slots, weights: Slots, w: seq<real>, r: int, count: nat)
    requires Shaped(l, data) && Replicated(l, weights, w) && count <= l.cols
    ensures Window(Mul(data, weights), r * l.cols, 1, count) == Dot(l, data, w, r, count)
  {
    hide Replicated, Shaped, Cell, At, Mul;
    SameLength(l, data, weights, w);
    if count > 0 {
      RowSum(l, data, weights, w, r, count - 1);
      RowTerm(l, data, weights, w, r, count - 1);
    }
  }

  lemma SameLength(l: Layout, data: Slots, weights: Slots, w: seq<real>)
    requires Shaped(l, data) && Replicated(l, weights, w)
    ensures |data| == |weights| && data != [] && |w| == l.cols
  {}

  /** Slot c of row r of the product. */
  lemma RowTerm(l: Layout, data: Slots, weights: Slots, w: seq<real>, r: int, c: nat)
    requires Shaped(l, data) && Replicated(l, weights, w) && c < l.cols
    ensures |data| == |weights| && data != []
    ensures At(Mul(data, weights), r * l.cols + 1 * c) == Cell(l, data, r, c) * w[c]
  {
    assert Cell(l, weights, r, c) == w[c];
  }

  /** row_propagate carries slot 0 of each row to all slots of the row, and nothing across rows. */
  lemma {:induction false} RowSpread(l: Layout, e: Slots, r: int, c: nat, m: nat)
    requires FirstColumn(l, e) && c < l.cols && m <= l.cols
    ensures Window(e, r * l.cols + c, -1, m) == if m > c then Cell(l, e, r, 0) else 0.0
  {
    hide FirstColumn, Cell, At;
    if m > 0 {
      RowSpread(l, e, r, c, m - 1);
      SlotBehind(l, e, r, c, m - 1);
    }
  }

  /** The slot t places before a cell: the row's first slot, or empty. */
  lemma SlotBehind(l: Layout, e: Slots, r: int, c: nat, t: nat)
    requires FirstColumn(l, e) && c < l.cols && t < l.cols
    ensures At(e, r * l.cols + c + -1 * t) == if t == c then Cell(l, e, r, 0) else 0.0
  {
    hide At;
    if t < c {
      assert Cell(l, e, r, c - t) == 0.0;
    } else if t > c {
      assert Cell(l, e, r - 1, l.cols + c - t) == 0.0;
      assert (r - 1) * l.cols == r * l.cols - l.cols;
    }
  }

  // ---------- Column sums ----------

  /** The sum of column c over the first count rows. */
  function ColumnSum(l: Layout, y: Slots, c: nat, count: nat): real
    requires y != []
  {
    if count == 0 then 0.0 else ColumnSum(l, y, c, count - 1) + Cell(l, y, count - 1, c)
  }

  lemma {:induction false} ColumnWindow(l: Layout, y: Slots, c: nat, count: nat)
    requires y != []
    ensures Window(y, c, l.cols, count) == ColumnSum(l, y, c, count)
  {
    if count > 0 {
      ColumnWindow(l, y, c, count - 1);
    }
  }

  /** col_accumulate leaves the sum of the whole column in every row. */
  lemma ColumnTotal(l: Layout, y: Slots, r: int, c: nat)
    requires Shaped(l, y)
    ensures Window(y, r * l.cols + c, l.cols, l.rows) == ColumnSum(l, y, c, l.rows)
  {
    hide Window, ColumnSum;
    Pow2Positive(l.rows);
    var m, k := TurnIndex(l.rows, l.cols, r, c);
    WindowTurns(y, c, l.cols, l.rows, k);
    WindowCongruent(y, c + l.cols * k, m, l.cols, l.rows);
    ColumnWindow(l, y, c, l.rows);
  }

  lemma TurnIndex(rows: nat, cols: nat, r: int, c: nat) returns (m: int, k: nat)
    requires rows > 0
    ensures r * cols + c == (c + cols * k) + rows * cols * m
  {
    m, k := r / rows, r % rows;
    assert r == rows * m + k;
    assert r * cols == rows * m * cols + k * cols;
    assert rows * m * cols == rows * cols * m;
  }

  lemma {:induction false} WindowCongruent(x: Slots, i: int, m: int, stride: int, count: nat)
    requires x != []
    ensures Window(x, i + |x| * m, stride, count) == Window(x, i, stride, count)
  {
    if count > 0 {
      WindowCongruent(x, i, m, stride, count - 1);
      ModMultiple(i + stride * (count - 1), m, |x|);
    }
  }

  // ---------- Plain gradient descent ----------

  /** p(x_r . w) - y_r */
  function Error(l: Layout, data: Slots, labels: Slots, w: seq<real>, r: int): real
    requires data != [] && labels != [] && l.cols <= |w|
  {
    Poly(Dot(l, data, w, r, l.cols)) - Cell(l, labels, r, 0)
  }

  /** The sum over the first count rows of the errors times feature c. */
  function Gradient(l: Layout, data: Slots, labels: Slots, w: seq<real>, c: nat, count: nat): real
    requires data != [] && labels != [] && l.cols <= |w|
  {
    if count == 0 then 0.0
    else Gradient(l, data, labels, w, c, count - 1) + Error(l, data, labels, w, count - 1) * Cell(l, data, count - 1, c)
  }

  /** w' = w - (lr / rows) * sum over rows of (p(x_r . w) - y_r) * x_r */
  function GradientStep(l: Layout, data: Slots, labels: Slots, w: seq<real>, lr: real): (w': seq<real>)
    requires l.rows > 0 && data != [] && labels != [] && |w| == l.cols
    ensures |w'| == l.cols
  {
    seq(l.cols, c requires 0 <= c < l.cols => w[c] - lr / l.rows as real * Gradient(l, data, labels, w, c, l.rows))
  }

  /** The scaled column sum is the scale times the gradient. */
  lemma {:induction false} ScaledGradient(l: Layout, data: Slots, labels: Slots, w: seq<real>, y: Slots, s: real,
                                          c: nat, count: nat)
    requires data != [] && labels != [] && l.cols <= |w| && y != []
    requires forall r :: 0 <= r < count ==>
      Cell(l, y, r, c) == Error(l, data, labels, w, r) * (Cell(l, data, r, c) * s)
    ensures ColumnSum(l, y, c, count) == s * Gradient(l, data, labels, w, c, count)
  {
    hide Error, Cell;
    if count > 0 {
      ScaledGradient(l, data, labels, w, y, s, c, count - 1);
      Distribute(s, Gradient(l, data, labels, w, c, count - 1), Error(l, data, labels, w, count - 1),
                 Cell(l, data, count - 1, c));
    } else {
      assert s * 0.0 == 0.0;
    }
  }

  lemma Distribute(s: real, g: real, e: real, x: real)
    ensures s * g + e * (x * s) == s * (g + e * x)
  {}

  /** Two rows of two features: predictions 0.5 and 0.6485, errors -0.5 and 0.5, gradient (1, 1.5). */
  lemma StepByHand()
    ensures GradientStep(Layout(2, 2), [1.0, 2.0, 3.0, 5.0], [1.0, 0.0, 0.1485, 0.0], [2.0, -1.0], 10.0)
         == [-3.0, -8.5]
  {
    var l, data, labels, w := Layout(2, 2), [1.0, 2.0, 3.0, 5.0], [1.0, 0.0, 0.1485, 0.0], [2.0, -1.0];
    assert Dot(l, data, w, 0, 2) == 0.0 && Dot(l, data, w, 1, 2) == 1.0;
    assert Error(l, data, labels, w, 0) == -0.5 && Error(l, data, labels, w, 1) == 0.5;
    assert Gradient(l, data, labels, w, 0, 2) == 1.0 && Gradient(l, data, labels, w, 1, 2) == 1.5;
  }

  // ---------- One iteration ----------

  /** row_accumulate, row_propagate and col_accumulate: windows of a full row or column. */
  method Accumulate(x: Slots, stride: int, k: nat, ghost keys: seq<int>) returns (ct: Slots)
    requires x != [] && IsPow2(k) && forall r :: r in TreeRotations(stride, 1, k) ==> r in keys
    ensures HoldsWindows(ct, x, stride, k)
  {
    hide HoldsWindows, Doubled;
    ct := DoublingTree(x, stride, 1, k, keys);
    TreeIsExact(1, k);
    assert stride * 1 == stride && 1 * k == k;
  }

  /** The rotations that one iteration needs keys for. */
  function Rotations(l: Layout): seq<int> {
    TreeRotations(1, 1, l.cols) + TreeRotations(-1, 1, l.cols) + TreeRotations(l.cols, 1, l.rows)
  }

  ghost predicate Enough(l: Layout, keys: seq<int>) {
    forall r :: r in Rotations(l) ==> r in keys
  }

  /** logistic_gen_keys: the client makes a key for every rotation that the server uses. */
  method GenRotationKeys(l: Layout) returns (keys: seq<int>)
    ensures Enough(l, keys)
  {
    keys := [];
    var j: nat := 1;
    while j < l.cols
      invariant j > 0
      invariant forall r :: r in TreeRotations(1, 1, l.cols) ==> r in keys || r in TreeRotations(1, j, l.cols)
      invariant forall r :: r in TreeRotations(-1, 1, l.cols) ==> r in keys || r in TreeRotations(-1, j, l.cols)
      decreases l.cols - j
    {
      var back: int := 0 - j;
      keys := keys + [j] + [back];
      j := j * 2;
    }
    j := 1;
    while j < l.rows
      invariant j > 0
      invariant forall r :: r in TreeRotations(1, 1, l.cols) || r in TreeRotations(-1, 1, l.cols) ==> r in keys
      invariant forall r :: r in TreeRotations(l.cols, 1, l.rows) ==> r in keys || r in TreeRotations(l.cols, j, l.rows)
      decreases l.rows - j
    {
      keys := keys + [l.cols * j];
      j := j * 2;
    }
  }

  /** The body of the training loop. */
  method Iterate(l: Layout, data: Slots, labels: Slots, weights0: Slots, lr: real, ghost keys: seq<int>,
                 ghost w: seq<real>) returns (weights: Slots)
    requires Shaped(l, data) && FirstColumn(l, labels) && Replicated(l, weights0, w) && Enough(l, keys)
    ensures l.rows > 0 && Replicated(l, weights, GradientStep(l, data, labels, w, lr))
  {
    hide HoldsWindows, Poly, Gradient, Window, Cell;
    Pow2Positive(l.rows);
    Pow2Positive(l.cols);
    var product := Mul(data, weights0);
    var sums := Accumulate(product, 1, l.cols, keys);
    WindowsLength(sums, product, 1, l.cols);
    var activated := Activation(l, sums);
    var errors := Sub(activated, labels);
    ErrorColumn(l, data, labels, weights0, w, sums, activated);
    var spread := Accumulate(errors, -1, l.cols, keys);
    WindowsLength(spread, errors, -1, l.cols);
    var scale := lr / l.rows as real;
    var scaled := Mul(spread, Scale(data, scale));
    var gradient := Accumulate(scaled, l.cols, l.rows, keys);
    WindowsLength(gradient, scaled, l.cols, l.rows);
    weights := Sub(weights0, gradient);
    ScaledCells(l, data, errors, spread, scale);
    WeightsStep(l, data, labels, weights0, w, errors, scaled, gradient, lr);
  }

  lemma ErrorColumn(l: Layout, data: Slots, labels: Slots, weights: Slots, w: seq<real>, sums: Slots, activated: Slots)
    requires Shaped(l, data) && FirstColumn(l, labels) && Replicated(l, weights, w)
    requires Shaped(l, activated) && HoldsWindows(sums, Mul(data, weights), 1, l.cols)
    requires forall r: int, c: nat :: c < l.cols ==>
      Cell(l, activated, r, c) == if c == 0 then Poly(Cell(l, sums, r, 0)) else 0.0
    ensures FirstColumn(l, Sub(activated, labels))
    ensures forall r: int :: Cell(l, Sub(activated, labels), r, 0) == Error(l, data, labels, w, r)
  {
    hide Poly, Window, Dot;
    Pow2Positive(l.cols);
    var errors := Sub(activated, labels);
    forall r: int, c: nat | c < l.cols
      ensures Cell(l, errors, r, c) == if c == 0 then Error(l, data, labels, w, r) else 0.0
    {
      assert Cell(l, errors, r, c) == Cell(l, activated, r, c) - Cell(l, labels, r, c);
      if c == 0 {
        RowSum(l, data, weights, w, r, l.cols);
        assert Cell(l, sums, r, 0) == Dot(l, data, w, r, l.cols);
      }
    }
  }

  lemma ScaledCells(l: Layout, data: Slots, errors: Slots, spread: Slots, scale: real)
    requires Shaped(l, data) && FirstColumn(l, errors) && HoldsWindows(spread, errors, -1, l.cols)
    ensures |spread| == |data|
    ensures forall r: int, c: nat :: c < l.cols ==>
      Cell(l, Mul(spread, Scale(data, scale)), r, c) == Cell(l, errors, r, 0) * (Cell(l, data, r, c) * scale)
  {
    hide Window;
    forall r: int, c: nat | c < l.cols
      ensures Cell(l, Mul(spread, Scale(data, scale)), r, c) == Cell(l, errors, r, 0) * (Cell(l, data, r, c) * scale)
    {
      RowSpread(l, errors, r, c, l.cols);
    }
  }

  lemma WeightsStep(l: Layout, data: Slots, labels: Slots, weights0: Slots, w: seq<real>, errors: Slots, scaled: Slots,
                    gradient: Slots, lr: real)
    requires Shaped(l, data) && labels != [] && Replicated(l, weights0, w) && l.rows > 0
    requires Shaped(l, scaled) && HoldsWindows(gradient, scaled, l.cols, l.rows) && errors != []
    requires forall r: int :: Cell(l, errors, r, 0) == Error(l, data, labels, w, r)
    requires forall r: int, c: nat :: c < l.cols ==>
      Cell(l, scaled, r, c) == Cell(l, errors, r, 0) * (Cell(l, data, r, c) * (lr / l.rows as real))
    ensures |gradient| == |weights0|
    ensures Replicated(l, Sub(weights0, gradient), GradientStep(l, data, labels, w, lr))
  {
    hide Window, Error, Gradient, Cell, HoldsWindows, ColumnSum;
    WindowsLength(gradient, scaled, l.cols, l.rows);
    var weights, w' := Sub(weights0, gradient), GradientStep(l, data, labels, w, lr);
    forall r: int, c: nat | c < l.cols
      ensures Cell(l, weights, r, c) == w'[c]
    {
      ColumnTotal(l, scaled, r, c);
      WindowCell(l, gradient, scaled, r, c);
      forall q | 0 <= q < l.rows
        ensures Cell(l, scaled, q, c) == Error(l, data, labels, w, q) * (Cell(l, data, q, c) * (lr / l.rows as real))
      {
        assert Cell(l, errors, q, 0) == Error(l, data, labels, w, q);
      }
      ScaledGradient(l, data, labels, w, scaled, lr / l.rows as real, c, l.rows);
      CellSub(l, weights0, gradient, r, c);
    }
  }

  lemma WindowCell(l: Layout, ct: Slots, x: Slots, r: int, c: nat)
    requires HoldsWindows(ct, x, l.cols, l.rows)
    ensures ct != [] && Cell(l, ct, r, c) == Window(x, r * l.cols + c, l.cols, l.rows)
  {
  }

  lemma CellSub(l: Layout, x: Slots, y: Slots, r: int, c: nat)
    requires |x| == |y| && x != []
    ensures Cell(l, Sub(x, y), r, c) == Cell(l, x, r, c) - Cell(l, y, r, c)
  {}

  // ---------- Training ----------

  /** max(10 / (iter + 1), 0.005) */
  function LearningRate(iter: nat): real {
    var r := 10.0 / (iter + 1) as real;
    if r < 0.005 then 0.005 else r
  }

  /** Ten shared by the steps so far, until it would fall below 0.005. */
  lemma LearningRateSpec(iter: nat)
    ensures LearningRate(iter) >= 0.005
    ensures iter < 2000 ==> LearningRate(iter) * (iter + 1) as real == 10.0
    ensures iter >= 1999 ==> LearningRate(iter) == 0.005
  {
    assert 10.0 / (iter + 1) as real * (iter + 1) as real == 10.0;
  }

  /** Plain gradient descent over the first batches. */
  function Train(l: Layout, inputs: seq<Slots>, batches: nat, w0: seq<real>, iterations: nat): (w: seq<real>)
    requires l.rows > 0 && |w0| == l.cols && iterations <= batches && 2 * batches <= |inputs|
    requires forall i :: 0 <= i < |inputs| ==> inputs[i] != []
    ensures |w| == l.cols
  {
    if iterations == 0 then w0
    else
      var i := iterations - 1;
      GradientStep(l, inputs[i], inputs[batches + i], Train(l, inputs, batches, w0, i), LearningRate(i))
  }

  /** The two iterations of the source: the first batch at rate 10, then the second at rate 5. */
  lemma TwoSteps(l: Layout, inputs: seq<Slots>, batches: nat, w0: seq<real>)
    requires l.rows > 0 && |w0| == l.cols && 2 <= batches && 2 * batches <= |inputs|
    requires forall i :: 0 <= i < |inputs| ==> inputs[i] != []
    ensures Train(l, inputs, batches, w0, 2)
         == GradientStep(l, inputs[1], inputs[batches + 1], GradientStep(l, inputs[0], inputs[batches], w0, 10.0), 5.0)
  {
    hide GradientStep;
    assert Train(l, inputs, batches, w0, 0) == w0;
    assert LearningRate(0) == 10.0 && LearningRate(1) == 5.0;
  }

  /** What the client sends: data, labels in column 0, and one row of weights in every row. */
  ghost predicate WellPacked(l: Layout, inputs: seq<Slots>, batches: nat, w0: seq<real>) {
    && |inputs| == 2 * batches + 1
    && (forall i :: 0 <= i < batches ==> Shaped(l, inputs[i]))
    && (forall i :: batches <= i < 2 * batches ==> FirstColumn(l, inputs[i]))
    && Replicated(l, inputs[2 * batches], w0)
  }

  lemma NoneEmpty(l: Layout, inputs: seq<Slots>, batches: nat, w0: seq<real>)
    requires WellPacked(l, inputs, batches, w0)
    ensures l.rows > 0 && |w0| == l.cols && forall i :: 0 <= i < |inputs| ==> inputs[i] != []
  {
    Pow2Positive(l.rows);
  }

  /**
   logistic_eval: for any number of iterations the result holds, in every row, the weights
   of plain gradient descent. The weights are the caller's last input, which is updated in
   place: after is what the caller's inputs hold afterwards. In the source there are 128 rows,
   256 columns, 10 batches and 2 iterations.
   */
  method LogisticEval(l: Layout, inputs: seq<Slots>, batches: nat, iterations: nat, ghost keys: seq<int>,
                      ghost w0: seq<real>) returns (r: Outcome<Slots>, after: seq<Slots>)
    requires iterations <= batches && Enough(l, keys)
    requires |inputs| == 2 * batches + 1 ==> WellPacked(l, inputs, batches, w0)
    ensures r.WrongInputCount? <==> |inputs| != 2 * batches + 1
    ensures r.Ok? ==>
      && WellPacked(l, inputs, batches, w0) && l.rows > 0 && |w0| == l.cols
      && (forall i :: 0 <= i < |inputs| ==> inputs[i] != [])
      && Replicated(l, r.value, Train(l, inputs, batches, w0, iterations))
    ensures after == if r.Ok? then inputs[2 * batches := r.value] else inputs
  {
    hide Replicated, FirstColumn, Shaped, GradientStep;
    after := inputs;
    if |inputs| != 2 * batches + 1 {
      return WrongInputCount, after;
    }
    NoneEmpty(l, inputs, batches, w0);
    for iter := 0 to iterations
      invariant |after| == |inputs| && after == inputs[2 * batches := after[2 * batches]]
      invariant Replicated(l, after[2 * batches], Train(l, inputs, batches, w0, iter))
    {
      var weights := Iterate(l, after[iter], after[batches + iter], after[2 * batches], LearningRate(iter), keys,
                       Train(l, inputs, batches, w0, iter));
      after := after[2 * batches := weights];
    }
    r := Ok(after[2 * batches]);
  }

  // ---------- The GPU prototype ----------

  /** AccumulateSumInPlace on the device: the cascade that the emitted indices describe. */
  function DeviceSum(x: Slots, stride: int, start: nat, size: nat): (r: Slots)
    requires x != [] && start > 0
    ensures |r| == |x|
  {
    Cascade.CascadeSum(x, Cascade.Stages(stride, start, size, |x|))
  }

  lemma DeviceWindows(x: Slots, stride: int, start: nat, k: nat)
    requires x != [] && start > 0 && IsPow2(k)
    ensures HoldsWindows(DeviceSum(x, stride, start, k * start), x, stride * start, k)
  {
    hide HoldsWindows;
    WindowsOfOne(x, stride * start);
    Cascade.CascadeSumsWindow(x, x, stride, start, 1, k * start);
    Cascade.CascadeExact(1, start, k);
  }

  /** The device's three sums, with the strides 1, n - 1 and 1 from cols on, sum what the CPU's trees sum. */
  lemma DeviceSums(l: Layout, x: Slots)
    requires Shaped(l, x)
    ensures HoldsWindows(DeviceSum(x, 1, 1, l.cols), x, 1, l.cols)
    ensures HoldsWindows(DeviceSum(x, |x| - 1, 1, l.cols), x, -1, l.cols)
    ensures l.cols > 0 && HoldsWindows(DeviceSum(x, 1, l.cols, l.rows * l.cols), x, l.cols, l.rows)
  {
    hide DeviceSum, Window;
    Pow2Positive(l.cols);
    DeviceWindows(x, 1, 1, l.cols);
    DeviceWindows(x, |x| - 1, 1, l.cols);
    DeviceWindows(x, 1, l.cols, l.rows);
    var back := DeviceSum(x, |x| - 1, 1, l.cols);
    forall i: int
      ensures At(back, i) == Window(x, i, -1, l.cols)
    {
      WindowBackwards(x, i, l.cols);
    }
  }

  /** Keys for every rotation of the three cascades, for n slots. */
  ghost predicate DeviceEnough(l: Layout, n: nat, keys: seq<int>)
    requires l.cols > 0 && n > 0
  {
    && (forall r :: r in Cascade.Flatten(Cascade.Stages(1, 1, l.cols, n)) ==> r in keys)
    && (forall r :: r in Cascade.Flatten(Cascade.Stages(n - 1, 1, l.cols, n)) ==> r in keys)
    && (forall r :: r in Cascade.Flatten(Cascade.Stages(1, l.cols, l.rows * l.cols, n)) ==> r in keys)
  }

  /** AccumulateSumInPlace on the device. */
  method AccumulateDevice(x: Slots, stride: int, start: nat, size: nat, ghost keys: seq<int>) returns (ct: Slots)
    requires x != [] && start > 0
    requires forall r :: r in Cascade.Flatten(Cascade.Stages(stride, start, size, |x|)) ==> r in keys
    ensures ct == DeviceSum(x, stride, start, size)
  {
    ct := Cascade.Accumulate(x, stride, start, size, keys);
  }

  /** The body of the GPU's training loop: one step of the same plain gradient descent. */
  method IterateDevice(l: Layout, data: Slots, labels: Slots, weights0: Slots, lr: real, ghost keys: seq<int>,
                       ghost w: seq<real>) returns (weights: Slots)
    requires Shaped(l, data) && FirstColumn(l, labels) && Replicated(l, weights0, w)
    requires l.cols > 0 && DeviceEnough(l, |data|, keys)
    ensures l.rows > 0 && Replicated(l, weights, GradientStep(l, data, labels, w, lr))
  {
    hide HoldsWindows, Poly, Gradient, Window, Cell, DeviceSum;
    Pow2Positive(l.rows);
    var product := Mul(data, weights0);
    var sums := AccumulateDevice(product, 1, 1, l.cols, keys);
    DeviceSums(l, product);
    var activated := Activation(l, sums);
    var errors := Sub(activated, labels);
    ErrorColumn(l, data, labels, weights0, w, sums, activated);
    var spread := AccumulateDevice(errors, |errors| - 1, 1, l.cols, keys);
    DeviceSums(l, errors);
    var scale := lr / l.rows as real;
    var scaled := Mul(spread, Scale(data, scale));
    var gradient := AccumulateDevice(scaled, 1, l.cols, l.rows * l.cols, keys);
    DeviceSums(l, scaled);
    weights := Sub(weights0, gradient);
    ScaledCells(l, data, errors, spread, scale);
    WeightsStep(l, data, labels, weights0, w, errors, scaled, gradient, lr);
  }

  /** logistic_eval of the GPU prototype, for any number of iterations. */
  method LogisticEvalDevice(l: Layout, inputs: seq<Slots>, batches: nat, iterations: nat, ghost keys: seq<int>,
                            ghost w0: seq<real>) returns (r: Outcome<Slots>)
    requires iterations <= batches && l.cols > 0 && l.rows > 0 && DeviceEnough(l, l.rows * l.cols, keys)
    requires |inputs| == 2 * batches + 1 ==> WellPacked(l, inputs, batches, w0)
    ensures r.WrongInputCount? <==> |inputs| != 2 * batches + 1
    ensures r.Ok? ==>
      && WellPacked(l, inputs, batches, w0) && |w0| == l.cols
      && (forall i :: 0 <= i < |inputs| ==> inputs[i] != [])
      && Replicated(l, r.value, Train(l, inputs, batches, w0, iterations))
  {
    hide Replicated, FirstColumn, GradientStep, DeviceEnough;
    if |inputs| != 2 * batches + 1 {
      return WrongInputCount;
    }
    NoneEmpty(l, inputs, batches, w0);
    var weights := inputs[2 * batches];
    for iter := 0 to iterations
      invariant Replicated(l, weights, Train(l, inputs, batches, w0, iter))
    {
      weights := IterateDevice(l, inputs[iter], inputs[batches + iter], weights, LearningRate(iter), keys,
                   Train(l, inputs, batches, w0, iter));
    }
    r := Ok(weights);
  }

  /** Weights in every row determine the whole vector. */
  lemma ReplicatedOnce(l: Layout, a: Slots, b: Slots, w: seq<real>)
    requires Replicated(l, a, w) && Replicated(l, b, w)
    ensures a == b
  {
    Pow2Positive(l.cols);
    forall i | 0 <= i < |a|
      ensures a[i] == b[i]
    {
      var r, c := CellOf(l, i);
      assert Cell(l, a, r, c) == w[c] && Cell(l, b, r, c) == w[c];
      AtInside(a, i);
      AtInside(b, i);
    }
  }

  /** Both prototypes, on the same inputs, refuse or end with equal ciphertexts. */
  method TrainOnBoth(l: Layout, inputs: seq<Slots>, batches: nat, iterations: nat, ghost cpuKeys: seq<int>,
                     ghost gpuKeys: seq<int>, ghost w0: seq<real>) returns (cpu: Outcome<Slots>, gpu: Outcome<Slots>)
    requires iterations <= batches && Enough(l, cpuKeys)
    requires l.cols > 0 && l.rows > 0 && DeviceEnough(l, l.rows * l.cols, gpuKeys)
    requires |inputs| == 2 * batches + 1 ==> WellPacked(l, inputs, batches, w0)
    ensures cpu == gpu
  {
    var after;
    cpu, after := LogisticEval(l, inputs, batches, iterations, cpuKeys, w0);
    gpu := LogisticEvalDevice(l, inputs, batches, iterations, gpuKeys, w0);
    if cpu.Ok? {
      ReplicatedOnce(l, cpu.value, gpu.value, Train(l, inputs, batches, w0, iterations));
    }
  }

  // ---------- The keys of the GPU prototype ----------

  /** The indices for bootstrapping. */
  const BOOT_INDICES: seq<int> := [3, 5, 6, 7, 9, 10, 11, 12, 13, 14, 15, 257]

  /** All numbers from 3 to 15 but the powers of two, and 257. */
  lemma BootIndicesAre(r: int)
    ensures r in BOOT_INDICES <==> (3 <= r <= 15 && !IsPow2(r)) || r == 257
  {
    assert IsPow2(4) && IsPow2(8);
  }

  ghost predicate StrictlyAscending(s: seq<int>) {
    forall i, j :: 0 <= i < j < |s| ==> s[i] < s[j]
  }

  /** Puts a number into its place, unless it is there. */
  function InsertOnce(s: seq<int>, x: int): seq<int> {
    if s == [] || x < s[0] then [x] + s else if x == s[0] then s else [s[0]] + InsertOnce(s[1..], x)
  }

  lemma {:induction false} InsertOnceSpec(s: seq<int>, x: int)
    requires StrictlyAscending(s)
    ensures StrictlyAscending(InsertOnce(s, x))
    ensures forall y :: y in InsertOnce(s, x) <==> y == x || y in s
    ensures InsertOnce(s, x)[0] == if s == [] || x < s[0] then x else s[0]
  {
    if s != [] && x > s[0] {
      InsertOnceSpec(s[1..], x);
      assert s == [s[0]] + s[1..];
    }
  }

  /** Sorting and removing duplicates. */
  method SortUnique(rotations: seq<int>) returns (keys: seq<int>)
    ensures StrictlyAscending(keys) && forall r :: r in keys <==> r in rotations
  {
    hide StrictlyAscending, InsertOnce;
    keys := [];
    assert StrictlyAscending(keys) by { NoneAscending(); }
    for i := 0 to |rotations|
      invariant StrictlyAscending(keys) && forall r :: r in keys <==> r in rotations[..i]
    {
      InsertOnceSpec(keys, rotations[i]);
      keys := InsertOnce(keys, rotations[i]);
    }
    assert rotations[..|rotations|] == rotations;
  }

  lemma NoneAscending()
    ensures StrictlyAscending([])
  {}

  /** logreg_rotation_indices: sorted, without duplicates, exactly the cascades' indices and those for bootstrapping. */
  method DeviceRotationKeys(l: Layout, n: nat) returns (keys: seq<int>)
    requires l.cols > 0 && n > 1
    ensures StrictlyAscending(keys) && DeviceEnough(l, n, keys)
    ensures forall r :: r in keys <==>
      || r in Cascade.Flatten(Cascade.Stages(1, 1, l.cols, n))
      || r in Cascade.Flatten(Cascade.Stages(n - 1, 1, l.cols, n))
      || r in Cascade.Flatten(Cascade.Stages(1, l.cols, l.rows * l.cols, n))
      || r in BOOT_INDICES
  {
    hide Cascade.Stages, Cascade.Flatten;
    var rotations := Cascade.EmitIndices([], 1, l.cols, 1, n);
    rotations := Cascade.EmitIndices(rotations, n - 1, l.cols, 1, n);
    rotations := Cascade.EmitIndices(rotations, 1, l.rows * l.cols, l.cols, n);
    rotations := rotations + BOOT_INDICES;
    keys := SortUnique(rotations);
  }
}
