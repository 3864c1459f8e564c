/**
 The row-vector compression of blake3_sse41.c: four 4-word vectors, diagonals reached
 by rotating rows 0, 2 and 3, and message words permuted by shuffles. It is proved to
 be the compression function.
 */
module RowCompress {
  import opened Compression

  type Vec = Vec4<Word>

  // ---------- The vector instructions ----------

  function AddV(a: Vec, b: Vec): Vec {
    Vec4(Add32(a.x0, b.x0), Add32(a.x1, b.x1), Add32(a.x2, b.x2), Add32(a.x3, b.x3))
  }

  /** addv(addv(a, b), c) */
  function Add3V(a: Vec, b: Vec, c: Vec): Vec {
    Vec4(Add3(a.x0, b.x0, c.x0), Add3(a.x1, b.x1, c.x1), Add3(a.x2, b.x2, c.x2), Add3(a.x3, b.x3, c.x3))
  }

  function XorV(a: Vec, b: Vec): Vec {
    Vec4(Xor32(a.x0, b.x0), Xor32(a.x1, b.x1), Xor32(a.x2, b.x2), Xor32(a.x3, b.x3))
  }

  function Lane(v: Vec, i: nat): Word
    requires i < 4
  {
    if i == 0 then v.x0 else if i == 1 then v.x1 else if i == 2 then v.x2 else v.x3
  }

  /** _mm_shuffle_epi32 with the selector _MM_SHUFFLE(z, y, x, w). */
  function Shuffle(v: Vec, z: nat, y: nat, x: nat, w: nat): Vec
    requires z < 4 && y < 4 && x < 4 && w < 4
  {
    Vec4(Lane(v, w), Lane(v, x), Lane(v, y), Lane(v, z))
  }

  /** _mm_shuffle_ps: two lanes of a, then two of b. */
  function ShufflePs(a: Vec, b: Vec, z: nat, y: nat, x: nat, w: nat): Vec
    requires z < 4 && y < 4 && x < 4 && w < 4
  {
    Vec4(Lane(a, w), Lane(a, x), Lane(b, y), Lane(b, z))
  }

  /** _mm_blend_epi16 for masks that take whole words: two equal mask bits per word. */
  function Blend(a: Vec, b: Vec, mask: nat): Vec {
    Vec4(if mask % 4 == 3 then b.x0 else a.x0, if mask / 4 % 4 == 3 then b.x1 else a.x1,
         if mask / 16 % 4 == 3 then b.x2 else a.x2, if mask / 64 % 4 == 3 then b.x3 else a.x3)
  }

  function UnpackLo64(a: Vec, b: Vec): Vec { Vec4(a.x0, a.x1, b.x0, b.x1) }

  function UnpackLo32(a: Vec, b: Vec): Vec { Vec4(a.x0, b.x0, a.x1, b.x1) }

  function UnpackHi32(a: Vec, b: Vec): Vec { Vec4(a.x2, b.x2, a.x3, b.x3) }

  function ByteOf(w: Word, k: nat): Word
    requires k < 4
  {
    if k == 0 then w & 0xff
    else if k == 1 then (w >> 8) & 0xff
    else if k == 2 then (w >> 16) & 0xff
    else (w >> 24) & 0xff
  }

  /** _mm_shuffle_epi8 within each word: byte i of the result is byte ki of w. */
  function ShuffleBytes(w: Word, k3: nat, k2: nat, k1: nat, k0: nat): Word
    requires k3 < 4 && k2 < 4 && k1 < 4 && k0 < 4
  {
    ByteOf(w, k0) | (ByteOf(w, k1) << 8) | (ByteOf(w, k2) << 16) | (ByteOf(w, k3) << 24)
  }

  function Rot16V(v: Vec): Vec {
    Vec4(ShuffleBytes(v.x0, 1, 0, 3, 2), ShuffleBytes(v.x1, 1, 0, 3, 2),
         ShuffleBytes(v.x2, 1, 0, 3, 2), ShuffleBytes(v.x3, 1, 0, 3, 2))
  }

  function Rot8V(v: Vec): Vec {
    Vec4(ShuffleBytes(v.x0, 0, 3, 2, 1), ShuffleBytes(v.x1, 0, 3, 2, 1),
         ShuffleBytes(v.x2, 0, 3, 2, 1), ShuffleBytes(v.x3, 0, 3, 2, 1))
  }

  function XorShift12(w: Word): Word { (w >> 12) ^ (w << 20) }

  function XorShift7(w: Word): Word { (w >> 7) ^ (w << 25) }

  function Rot12V(v: Vec): Vec {
    Vec4(XorShift12(v.x0), XorShift12(v.x1), XorShift12(v.x2), XorShift12(v.x3))
  }

  function Rot7V(v: Vec): Vec {
    Vec4(XorShift7(v.x0), XorShift7(v.x1), XorShift7(v.x2), XorShift7(v.x3))
  }

  /** The byte shuffles and the xor of two shifts are the rotations of the portable code. */
  lemma WordRotations(w: Word)
    ensures ShuffleBytes(w, 1, 0, 3, 2) == Rot16(w) && ShuffleBytes(w, 0, 3, 2, 1) == Rot8(w)
    ensures XorShift12(w) == Rot12(w) && XorShift7(w) == Rot7(w)
  {}

  lemma VecRotations(v: Vec)
    ensures Rot16V(v) == Vec4(Rot16(v.x0), Rot16(v.x1), Rot16(v.x2), Rot16(v.x3))
    ensures Rot8V(v) == Vec4(Rot8(v.x0), Rot8(v.x1), Rot8(v.x2), Rot8(v.x3))
    ensures Rot12V(v) == Vec4(Rot12(v.x0), Rot12(v.x1), Rot12(v.x2), Rot12(v.x3))
    ensures Rot7V(v) == Vec4(Rot7(v.x0), Rot7(v.x1), Rot7(v.x2), Rot7(v.x3))
  {
    hide ShuffleBytes, XorShift12, XorShift7, Rot16, Rot12, Rot8, Rot7;
    WordRotations(v.x0);
    WordRotations(v.x1);
    WordRotations(v.x2);
    WordRotations(v.x3);
  }

  lemma AddSwap(a: Word, m: Word, b: Word)
    ensures Add3(a, m, b) == Add3(a, b, m)
  {}

  lemma AddSwapV(a: Vec, m: Vec, b: Vec)
    ensures Add3V(a, m, b) == Add3V(a, b, m)
  {
    hide Add3;
    AddSwap(a.x0, m.x0, b.x0);
    AddSwap(a.x1, m.x1, b.x1);
    AddSwap(a.x2, m.x2, b.x2);
    AddSwap(a.x3, m.x3, b.x3);
  }

  // ---------- One round ----------

  /** Column i of the rows. */
  function Column(s: State, i: nat): Vec
    requires i < 4
  {
    Vec4(Lane(s.r0, i), Lane(s.r1, i), Lane(s.r2, i), Lane(s.r3, i))
  }

  function FromColumns(c0: Vec, c1: Vec, c2: Vec, c3: Vec): State {
    Matrix(Vec4(c0.x0, c1.x0, c2.x0, c3.x0), Vec4(c0.x1, c1.x1, c2.x1, c3.x1),
           Vec4(c0.x2, c1.x2, c2.x2, c3.x2), Vec4(c0.x3, c1.x3, c2.x3, c3.x3))
  }

  /** The first half of the quarter-round on all four columns. */
  function Halves1(s: State, m: Vec): State {
    FromColumns(HalfG1(Column(s, 0), m.x0), HalfG1(Column(s, 1), m.x1),
                HalfG1(Column(s, 2), m.x2), HalfG1(Column(s, 3), m.x3))
  }

  function Halves2(s: State, m: Vec): State {
    FromColumns(HalfG2(Column(s, 0), m.x0), HalfG2(Column(s, 1), m.x1),
                HalfG2(Column(s, 2), m.x2), HalfG2(Column(s, 3), m.x3))
  }

  /** The rows with the diagonals turned into columns; row 1 stays where it is. */
  function Diag(s: State): State {
    Matrix(Shuffle(s.r0, 2, 1, 0, 3), s.r1, Shuffle(s.r2, 0, 3, 2, 1), Shuffle(s.r3, 1, 0, 3, 2))
  }

  function Undiag(s: State): State {
    Matrix(Shuffle(s.r0, 0, 3, 2, 1), s.r1, Shuffle(s.r2, 2, 1, 0, 3), Shuffle(s.r3, 1, 0, 3, 2))
  }

  /** The message words of one round, in the groups that are mixed in parallel. */
  datatype Groups = Groups(t0: Vec, t1: Vec, t2: Vec, t3: Vec)

  function GroupsOf(v: Words16): Groups {
    Groups(Vec4(v[0], v[2], v[4], v[6]), Vec4(v[1], v[3], v[5], v[7]),
           Vec4(v[14], v[8], v[10], v[12]), Vec4(v[15], v[9], v[11], v[13]))
  }

  function RowRound(s: State, t: Groups): State {
    Undiag(Halves2(Halves1(Diag(Halves2(Halves1(s, t.t0), t.t1)), t.t2), t.t3))
  }

  /** Rotating row 0 instead of row 1, with the diagonal words rotated along, is the portable round. */
  lemma RowRoundIsRound(s: State, v: Words16)
    ensures RowRound(s, GroupsOf(v)) == Round(s, v)
  {
    hide HalfG1, HalfG2;
    RowColumns(s, v);
    RowDiagonals(Columns(s, v), v);
  }

  lemma RowColumns(s: State, v: Words16)
    ensures Halves2(Halves1(s, GroupsOf(v).t0), GroupsOf(v).t1) == Columns(s, v)
  {
    hide HalfG1, HalfG2;
  }

  lemma RowDiagonals(s: State, v: Words16)
    ensures Undiag(Halves2(Halves1(Diag(s), GroupsOf(v).t2), GroupsOf(v).t3)) == Diagonals(s, v)
  {
    hide HalfG1, HalfG2;
  }

  class Rows {
    var r0: Vec
    var r1: Vec
    var r2: Vec
    var r3: Vec

    ghost function Value(): State
      reads this
    {
      Matrix(r0, r1, r2, r3)
    }

    constructor (s: State)
      ensures Value() == s
    {
      r0, r1, r2, r3 := s.r0, s.r1, s.r2, s.r3;
    }

    /** g1 */
    method G1(m: Vec)
      modifies this
      ensures Value() == Halves1(old(Value()), m)
    {
      hide Add32, Add3, Xor32, Rot16, Rot12, Rot16V, Rot12V;
      AddSwapV(r0, m, r1);
      r0 := Add3V(r0, m, r1);
      r3 := XorV(r3, r0);
      VecRotations(r3);
      r3 := Rot16V(r3);
      r2 := AddV(r2, r3);
      r1 := XorV(r1, r2);
      VecRotations(r1);
      r1 := Rot12V(r1);
    }

    /** g2 */
    method G2(m: Vec)
      modifies this
      ensures Value() == Halves2(old(Value()), m)
    {
      hide Add32, Add3, Xor32, Rot8, Rot7, Rot8V, Rot7V;
      AddSwapV(r0, m, r1);
      r0 := Add3V(r0, m, r1);
      r3 := XorV(r3, r0);
      VecRotations(r3);
      r3 := Rot8V(r3);
      r2 := AddV(r2, r3);
      r1 := XorV(r1, r2);
      VecRotations(r1);
      r1 := Rot7V(r1);
    }

    method Diagonalize()
      modifies this
      ensures Value() == Diag(old(Value()))
    {
      r0 := Shuffle(r0, 2, 1, 0, 3);
      r3 := Shuffle(r3, 1, 0, 3, 2);
      r2 := Shuffle(r2, 0, 3, 2, 1);
    }

    method Undiagonalize()
      modifies this
      ensures Value() == Undiag(old(Value()))
    {
      r0 := Shuffle(r0, 0, 3, 2, 1);
      r3 := Shuffle(r3, 1, 0, 3, 2);
      r2 := Shuffle(r2, 2, 1, 0, 3);
    }
  }

  // ---------- The message schedule by shuffles ----------

  /** The permutation between two rounds, which is row 1 of the schedule. */
  function Permute(v: Words16): Words16 {
    ScheduleInRange(1);
    seq(16, i requires 0 <= i < 16 => v[MSG_SCHEDULE[1][i]])
  }

  /** Permuting once per round visits the schedule table row by row. */
  lemma ScheduleStep(m: Words16, r: nat)
    requires r + 1 < |MSG_SCHEDULE|
    ensures Scheduled(m, r + 1) == Permute(Scheduled(m, r))
  {
    ScheduleInRange(r);
    ScheduleInRange(1);
    ScheduleInRange(r + 1);
    ScheduleTable(r);
  }

  lemma ScheduleTable(r: nat)
    requires r + 1 < |MSG_SCHEDULE|
    ensures |MSG_SCHEDULE[r]| == |MSG_SCHEDULE[1]| == |MSG_SCHEDULE[r + 1]| == 16
    ensures forall i :: 0 <= i < 16 ==> MSG_SCHEDULE[1][i] < 16
    ensures forall i :: 0 <= i < 16 ==> MSG_SCHEDULE[r + 1][i] == MSG_SCHEDULE[r][MSG_SCHEDULE[1][i]]
  {
    if r == 0 {
    } else if r == 1 {
    } else if r == 2 {
    } else if r == 3 {
    } else if r == 4 {
    } else {
    }
  }

  lemma ScheduleStart(m: Words16)
    ensures Scheduled(m, 0) == m
  {}

  /** The shuffles of rounds 2 to 7. */
  function NextGroups(g: Groups): Groups {
    var t0 := Shuffle(ShufflePs(g.t0, g.t1, 3, 1, 1, 2), 0, 3, 2, 1);
    var t1 := Blend(Shuffle(g.t0, 0, 0, 3, 3), ShufflePs(g.t2, g.t3, 3, 3, 2, 2), 0xCC);
    var t2 := Shuffle(Blend(UnpackLo64(g.t3, g.t1), g.t2, 0xC0), 1, 3, 2, 0);
    var t3 := Shuffle(UnpackLo32(g.t2, UnpackHi32(g.t1, g.t3)), 0, 1, 3, 2);
    Groups(t0, t1, t2, t3)
  }

  lemma ShufflesPermute(v: Words16)
    ensures NextGroups(GroupsOf(v)) == GroupsOf(Permute(v))
  {}

  /** The shuffles of round 1, from the block in input order. */
  function FirstGroups(m0: Vec, m1: Vec, m2: Vec, m3: Vec): Groups {
    Groups(ShufflePs(m0, m1, 2, 0, 2, 0), ShufflePs(m0, m1, 3, 1, 3, 1),
           Shuffle(ShufflePs(m2, m3, 2, 0, 2, 0), 2, 1, 0, 3), Shuffle(ShufflePs(m2, m3, 3, 1, 3, 1), 2, 1, 0, 3))
  }

  function LoadVec(w: Words16, at: nat): Vec
    requires at + 4 <= 16
  {
    Vec4(w[at], w[at + 1], w[at + 2], w[at + 3])
  }

  lemma FirstShuffles(w: Words16)
    ensures FirstGroups(LoadVec(w, 0), LoadVec(w, 4), LoadVec(w, 8), LoadVec(w, 12)) == GroupsOf(w)
  {}

  // ---------- The seven rounds ----------

  /** One round on the rows: columns, then diagonals. */
  method RoundFn(rows: Rows, t: Groups)
    modifies rows
    ensures rows.Value() == RowRound(old(rows.Value()), t)
  {
    hide Halves1, Halves2, Diag, Undiag;
    rows.G1(t.t0);
    rows.G2(t.t1);
    rows.Diagonalize();
    rows.G1(t.t2);
    rows.G2(t.t3);
    rows.Undiagonalize();
  }

  /** compress_pre: round 1 orders the words, rounds 2 to 7 permute those of the round before. */
  method CompressPre(rows: Rows, block: Block)
    modifies rows
    ensures rows.Value() == Rounds(old(rows.Value()), BlockWords(block), |MSG_SCHEDULE|)
  {
    hide RowRound, Round, NextGroups, FirstGroups, GroupsOf, Scheduled, Permute;
    var w := BlockWords(block);
    ghost var s := rows.Value();
    var t := FirstGroups(LoadVec(w, 0), LoadVec(w, 4), LoadVec(w, 8), LoadVec(w, 12));
    FirstShuffles(w);
    ScheduleStart(w);
    RoundFn(rows, t);
    RowRoundIsRound(s, Scheduled(w, 0));
    assert Rounds(s, w, 0) == s;
    for r := 1 to |MSG_SCHEDULE|
      invariant t == GroupsOf(Scheduled(w, r - 1)) && rows.Value() == Rounds(s, w, r)
    {
      t := NextGroups(t);
      ShufflesPermute(Scheduled(w, r - 1));
      ScheduleStep(w, r - 1);
      RowRoundIsRound(rows.Value(), Scheduled(w, r));
      RoundFn(rows, t);
    }
  }

  /** blake3_compress_in_place_sse41: agrees with the portable code on every input. */
  method CompressInPlaceSse41(cv: array<Word>, block: Block, blockLen: nat, counter: nat, flags: Byte)
    requires cv.Length == 8
    modifies cv
    ensures cv[..] == Blake3Compress(old(cv[..]), block, blockLen, counter, flags)[..8]
  {
    hide Rounds, BlockWords, BlockInfo, Xor32;
    ghost var cv0 := cv[..];
    var rows := new Rows(StartState(cv[..], BlockInfo(blockLen, counter, flags)));
    CompressPre(rows, block);
    var low, high := XorV(rows.r0, rows.r2), XorV(rows.r1, rows.r3);
    forall i | 0 <= i < 8 {
      cv[i] := if i < 4 then Lane(low, i) else Lane(high, i - 4);
    }
    ghost var s := rows.Value();
    forall i | 0 <= i < 8
      ensures cv[i] == Feed(s, cv0)[i]
    {
      FeedLanes(s, cv0, i);
    }
  }

  /** blake3_compress_xof_sse41 */
  method CompressXofSse41(cv: Words8, block: Block, blockLen: nat, counter: nat, flags: Byte) returns (out: Block)
    ensures out == StoreWords(Blake3Compress(cv, block, blockLen, counter, flags))
  {
    hide Rounds, BlockWords, BlockInfo, Xor32;
    var rows := new Rows(StartState(cv, BlockInfo(blockLen, counter, flags)));
    CompressPre(rows, block);
    var words := new Word[16];
    var v0, v1 := XorV(rows.r0, rows.r2), XorV(rows.r1, rows.r3);
    var v2, v3 := XorV(rows.r2, Vec4(cv[0], cv[1], cv[2], cv[3])), XorV(rows.r3, Vec4(cv[4], cv[5], cv[6], cv[7]));
    forall i | 0 <= i < 16 {
      words[i] := if i < 4 then Lane(v0, i) else if i < 8 then Lane(v1, i - 4)
                  else if i < 12 then Lane(v2, i - 8) else Lane(v3, i - 12);
    }
    ghost var s := rows.Value();
    forall i | 0 <= i < 16
      ensures words[i] == Feed(s, cv)[i]
    {
      FeedLanes(s, cv, i);
    }
    assert words[..] == Feed(s, cv);
    out := StoreWords(words[..]);
  }

  lemma FeedLanes(s: State, cv: Words8, i: nat)
    requires i < 16
    ensures Feed(s, cv)[i]
         == if i < 4 then Lane(XorV(s.r0, s.r2), i) else if i < 8 then Lane(XorV(s.r1, s.r3), i - 4)
            else if i < 12 then Lane(XorV(s.r2, Vec4(cv[0], cv[1], cv[2], cv[3])), i - 8)
            else Lane(XorV(s.r3, Vec4(cv[4], cv[5], cv[6], cv[7])), i - 12)
  {
    hide Xor32;
  }
}
