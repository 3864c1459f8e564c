/**
 The transposition networks of the batched hashing: a register is a row of 128-bit lanes
 of four words, and unpacking within lanes and shuffling whole lanes turns rows of words
 into columns.
 */
module Transposition {
  import opened Compression
  import opened RowCompress

  /** A register as its 128-bit lanes. */
  type Lanes = seq<Vec>

  function WordIn(r: Lanes, j: nat): Word
    requires j < 4 * |r|
  {
    Lane(r[j / 4], j % 4)
  }

  /** As many registers as each has words. */
  ghost predicate Square(v: seq<Lanes>, lanes: nat) {
    |v| == 4 * lanes && forall i :: 0 <= i < |v| ==> |v[i]| == lanes
  }

  /** Word j of register i is word i of register j. */
  ghost predicate IsTranspose(t: seq<Lanes>, v: seq<Lanes>, lanes: nat)
    requires Square(v, lanes)
  {
    Square(t, lanes) && forall i, j :: 0 <= i < 4 * lanes && 0 <= j < 4 * lanes ==> WordIn(t[i], j) == WordIn(v[j], i)
  }

  function UnpackHi64(a: Vec, b: Vec): Vec { Vec4(a.x2, a.x3, b.x2, b.x3) }

  /** The 32-bit and 64-bit unpacks of four registers, in one lane. */
  function QuadLane(a: Vec, b: Vec, c: Vec, d: Vec): Vec4<Vec> {
    var ab01, ab23 := UnpackLo32(a, b), UnpackHi32(a, b);
    var cd01, cd23 := UnpackLo32(c, d), UnpackHi32(c, d);
    Vec4(UnpackLo64(ab01, cd01), UnpackHi64(ab01, cd01), UnpackLo64(ab23, cd23), UnpackHi64(ab23, cd23))
  }

  function PickReg<T>(q: Vec4<T>, k: nat): T
    requires k < 4
  {
    if k == 0 then q.x0 else if k == 1 then q.x1 else if k == 2 then q.x2 else q.x3
  }

  /** The four rows of a lane become its four columns. */
  lemma QuadLaneTransposes(q: Vec4<Vec>, m: nat, k: nat)
    requires m < 4 && k < 4
    ensures Lane(PickReg(QuadLane(q.x0, q.x1, q.x2, q.x3), k), m) == Lane(PickReg(q, m), k)
  {}

  /** The unpacks of four registers in all their lanes. */
  function Quad(a: Lanes, b: Lanes, c: Lanes, d: Lanes): (q: Vec4<Lanes>)
    requires |a| == |b| == |c| == |d|
    ensures |q.x0| == |q.x1| == |q.x2| == |q.x3| == |a|
  {
    var n := |a|;
    Vec4(seq(n, l requires 0 <= l < n => QuadLane(a[l], b[l], c[l], d[l]).x0),
         seq(n, l requires 0 <= l < n => QuadLane(a[l], b[l], c[l], d[l]).x1),
         seq(n, l requires 0 <= l < n => QuadLane(a[l], b[l], c[l], d[l]).x2),
         seq(n, l requires 0 <= l < n => QuadLane(a[l], b[l], c[l], d[l]).x3))
  }

  /** The unpacks of the group of registers 4g, ..., 4g + 3. */
  function Group(v: seq<Lanes>, lanes: nat, g: nat): (q: Vec4<Lanes>)
    requires |v| == 4 * lanes && g < lanes && forall i :: 0 <= i < |v| ==> |v[i]| == lanes
    ensures |q.x0| == |q.x1| == |q.x2| == |q.x3| == lanes
  {
    Quad(v[4 * g], v[4 * g + 1], v[4 * g + 2], v[4 * g + 3])
  }

  lemma GroupWord(v: seq<Lanes>, lanes: nat, g: nat, k: nat, l: nat, m: nat)
    requires Square(v, lanes) && g < lanes && k < 4 && l < lanes && m < 4
    ensures Lane(PickReg(Group(v, lanes, g), k)[l], m) == WordIn(v[4 * g + m], 4 * l + k)
  {
    hide QuadLane, Lane;
    QuadLaneTransposes(Vec4(v[4 * g][l], v[4 * g + 1][l], v[4 * g + 2][l], v[4 * g + 3][l]), m, k);
  }

  /** Lane g of register 4l + k is lane l of register k of group g. */
  ghost predicate LanesShuffled(t: seq<Lanes>, v: seq<Lanes>, lanes: nat)
    requires Square(v, lanes)
  {
    && Square(t, lanes)
    && forall l, k, g :: 0 <= l < lanes && 0 <= k < 4 && 0 <= g < lanes ==>
      t[4 * l + k][g] == PickReg(Group(v, lanes, g), k)[l]
  }

  lemma ShuffledIsTranspose(t: seq<Lanes>, v: seq<Lanes>, lanes: nat)
    requires Square(v, lanes) && LanesShuffled(t, v, lanes)
    ensures IsTranspose(t, v, lanes)
  {
    hide Lane, Group;
    forall i, j | 0 <= i < 4 * lanes && 0 <= j < 4 * lanes
      ensures WordIn(t[i], j) == WordIn(v[j], i)
    {
      var l, k, g, m := i / 4, i % 4, j / 4, j % 4;
      assert t[4 * l + k][g] == PickReg(Group(v, lanes, g), k)[l];
      GroupWord(v, lanes, g, k, l, m);
    }
  }

  /** transpose_vecs and transpose_vecs_128 */
  method TransposeVecs128(v: seq<Lanes>) returns (t: seq<Lanes>)
    requires Square(v, 1)
    ensures IsTranspose(t, v, 1)
  {
    hide Quad;
    var abcd := Group(v, 1, 0);
    t := [abcd.x0, abcd.x1, abcd.x2, abcd.x3];
    ShuffledIsTranspose(t, v, 1);
  }

  /** permute2x128 with 0x20 and 0x31: the low, or the high, lanes of both. */
  function LowLanes(a: Lanes, b: Lanes): Lanes
    requires |a| == |b| == 2
  {
    [a[0], b[0]]
  }

  function HighLanes(a: Lanes, b: Lanes): Lanes
    requires |a| == |b| == 2
  {
    [a[1], b[1]]
  }

  /** transpose_vecs_256 */
  method TransposeVecs256(v: seq<Lanes>) returns (t: seq<Lanes>)
    requires Square(v, 2)
    ensures IsTranspose(t, v, 2)
  {
    hide Quad;
    var abcd, efgh := Group(v, 2, 0), Group(v, 2, 1);
    t := [LowLanes(abcd.x0, efgh.x0), LowLanes(abcd.x1, efgh.x1), LowLanes(abcd.x2, efgh.x2),
          LowLanes(abcd.x3, efgh.x3), HighLanes(abcd.x0, efgh.x0), HighLanes(abcd.x1, efgh.x1),
          HighLanes(abcd.x2, efgh.x2), HighLanes(abcd.x3, efgh.x3)];
    ShuffledIsTranspose(t, v, 2);
  }

  /** unpack_lo_128: lanes 0 and 2 of both. */
  function UnpackLo128(a: Lanes, b: Lanes): (r: Lanes)
    requires |a| == |b| == 4
    ensures |r| == 4
  {
    [a[0], a[2], b[0], b[2]]
  }

  /** unpack_hi_128: lanes 1 and 3 of both. */
  function UnpackHi128(a: Lanes, b: Lanes): (r: Lanes)
    requires |a| == |b| == 4
    ensures |r| == 4
  {
    [a[1], a[3], b[1], b[3]]
  }

  /** The two rounds of lane shuffles for register k of the four groups: registers k, k + 4, k + 8 and k + 12. */
  function Shuffle512(a: Lanes, e: Lanes, i: Lanes, m: Lanes): (r: Vec4<Lanes>)
    requires |a| == |e| == |i| == |m| == 4
    ensures |r.x0| == |r.x1| == |r.x2| == |r.x3| == 4
    ensures forall l :: 0 <= l < 4 ==> PickReg(r, l) == [a[l], e[l], i[l], m[l]]
  {
    var ae0, ae4 := UnpackLo128(a, e), UnpackHi128(a, e);
    var im0, im4 := UnpackLo128(i, m), UnpackHi128(i, m);
    Vec4(UnpackLo128(ae0, im0), UnpackLo128(ae4, im4), UnpackHi128(ae0, im0), UnpackHi128(ae4, im4))
  }

  /** transpose_vecs_512 */
  method TransposeVecs512(v: seq<Lanes>) returns (t: seq<Lanes>)
    requires Square(v, 4)
    ensures IsTranspose(t, v, 4)
  {
    hide Quad, Group, Shuffle512;
    var abcd, efgh, ijkl, mnop := Group(v, 4, 0), Group(v, 4, 1), Group(v, 4, 2), Group(v, 4, 3);
    var s0 := Shuffle512(abcd.x0, efgh.x0, ijkl.x0, mnop.x0);
    var s1 := Shuffle512(abcd.x1, efgh.x1, ijkl.x1, mnop.x1);
    var s2 := Shuffle512(abcd.x2, efgh.x2, ijkl.x2, mnop.x2);
    var s3 := Shuffle512(abcd.x3, efgh.x3, ijkl.x3, mnop.x3);
    var s := Vec4(s0, s1, s2, s3);
    t := seq(16, i requires 0 <= i < 16 => PickReg(PickReg(s, i % 4), i / 4));
    forall l, k, g | 0 <= l < 4 && 0 <= k < 4 && 0 <= g < 4
      ensures t[4 * l + k][g] == PickReg(Group(v, 4, g), k)[l]
    {
      assert t[4 * l + k] == PickReg(PickReg(s, k), l);
    }
    ShuffledIsTranspose(t, v, 4);
  }

  /** All of a register's words in a row. */
  function Flat(r: Lanes): (ws: seq<Word>)
    ensures |ws| == 4 * |r|
  {
    seq(4 * |r|, j requires 0 <= j < 4 * |r| => WordIn(r, j))
  }

  /** A load of consecutive words. */
  function LoadLanes(ws: seq<Word>, at: nat, lanes: nat): (r: Lanes)
    requires at + 4 * lanes <= |ws|
    ensures |r| == lanes
  {
    seq(lanes, l requires 0 <= l < lanes =>
      Vec4(ws[at + 4 * l], ws[at + 4 * l + 1], ws[at + 4 * l + 2], ws[at + 4 * l + 3]))
  }

  lemma LoadedWord(ws: seq<Word>, at: nat, lanes: nat, j: nat)
    requires at + 4 * lanes <= |ws| && j < 4 * lanes
    ensures WordIn(LoadLanes(ws, at, lanes), j) == ws[at + j]
  {}

  /** The network for registers of d words. */
  method Transpose(d: nat, v: seq<Lanes>) returns (t: seq<Lanes>)
    requires d in {4, 8, 16} && Square(v, d / 4)
    ensures IsTranspose(t, v, d / 4)
  {
    hide IsTranspose;
    if d == 4 {
      t := TransposeVecs128(v);
    } else if d == 8 {
      t := TransposeVecs256(v);
    } else {
      t := TransposeVecs512(v);
    }
  }
}
