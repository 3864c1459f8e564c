/**
 Batched hashing: one vector register holds the same state word of several inputs, one
 input per lane. The batches of 16, 8, 4 and 1 of blake3_avx512.c are proved to leave for
 every input what hashing it alone leaves.
 */
module Batches {
  import Bits
  import opened Compression
  import opened Tree
  import opened Subtree
  import opened RowCompress
  import opened Transposition

  /** A vector register: one word per lane. */
  type Reg = seq<Word>

  // ---------- Lanes ----------

  ghost predicate Width4(v: Vec4<Reg>, d: nat) {
    |v.x0| == d && |v.x1| == d && |v.x2| == d && |v.x3| == d
  }

  ghost predicate Width16(v: Matrix<Reg>, d: nat) {
    Width4(v.r0, d) && Width4(v.r1, d) && Width4(v.r2, d) && Width4(v.r3, d)
  }

  ghost function LaneVec(v: Vec4<Reg>, d: nat, j: nat): Vec
    requires Width4(v, d) && j < d
  {
    Vec4(v.x0[j], v.x1[j], v.x2[j], v.x3[j])
  }

  /** The state that lane j of sixteen registers holds. */
  ghost function LaneState(v: Matrix<Reg>, d: nat, j: nat): State
    requires Width16(v, d) && j < d
  {
    Matrix(LaneVec(v.r0, d, j), LaneVec(v.r1, d, j), LaneVec(v.r2, d, j), LaneVec(v.r3, d, j))
  }

  // ---------- Instructions on all lanes ----------

  /** Two additions in a row into the same register. */
  function Add3R(a: Reg, b: Reg, c: Reg): (r: Reg)
    requires |a| == |b| == |c|
    ensures |r| == |a| && forall i :: 0 <= i < |a| ==> r[i] == Add3(a[i], b[i], c[i])
  {
    seq(|a|, i requires 0 <= i < |a| => Add3(a[i], b[i], c[i]))
  }

  function AddR(a: Reg, b: Reg): (r: Reg)
    requires |a| == |b|
    ensures |r| == |a| && forall i :: 0 <= i < |a| ==> r[i] == Add32(a[i], b[i])
  {
    seq(|a|, i requires 0 <= i < |a| => Add32(a[i], b[i]))
  }

  function XorR(a: Reg, b: Reg): (r: Reg)
    requires |a| == |b|
    ensures |r| == |a| && forall i :: 0 <= i < |a| ==> r[i] == Xor32(a[i], b[i])
  {
    seq(|a|, i requires 0 <= i < |a| => Xor32(a[i], b[i]))
  }

  function RotR(a: Reg, f: Word -> Word): (r: Reg)
    ensures |r| == |a| && forall i :: 0 <= i < |a| ==> r[i] == f(a[i])
  {
    seq(|a|, i requires 0 <= i < |a| => f(a[i]))
  }

  function Set1(w: Word, d: nat): (r: Reg)
    ensures |r| == d && forall i :: 0 <= i < d ==> r[i] == w
  {
    seq(d, i => w)
  }

  // ---------- Rounds on all lanes ----------

  /** A quarter of round_fn: the first half of the quarter-round on four columns, stage by stage. */
  method Step1(v: Matrix<Reg>, m: Vec4<Reg>, ghost d: nat) returns (w: Matrix<Reg>)
    requires Width16(v, d) && Width4(m, d)
    ensures Width16(w, d)
    ensures forall j :: 0 <= j < d ==> LaneState(w, d, j) == Halves1(LaneState(v, d, j), LaneVec(m, d, j))
  {
    hide Add32, Add3, Xor32, Rot16, Rot12, Add3R, AddR, XorR, RotR;
    var Matrix(Vec4(v0, v1, v2, v3), Vec4(v4, v5, v6, v7), Vec4(v8, v9, v10, v11), Vec4(v12, v13, v14, v15)) := v;
    v0 := Add3R(v0, v4, m.x0);
    v1 := Add3R(v1, v5, m.x1);
    v2 := Add3R(v2, v6, m.x2);
    v3 := Add3R(v3, v7, m.x3);
    v12 := XorR(v12, v0);
    v13 := XorR(v13, v1);
    v14 := XorR(v14, v2);
    v15 := XorR(v15, v3);
    v12 := RotR(v12, Rot16);
    v13 := RotR(v13, Rot16);
    v14 := RotR(v14, Rot16);
    v15 := RotR(v15, Rot16);
    v8 := AddR(v8, v12);
    v9 := AddR(v9, v13);
    v10 := AddR(v10, v14);
    v11 := AddR(v11, v15);
    v4 := XorR(v4, v8);
    v5 := XorR(v5, v9);
    v6 := XorR(v6, v10);
    v7 := XorR(v7, v11);
    v4 := RotR(v4, Rot12);
    v5 := RotR(v5, Rot12);
    v6 := RotR(v6, Rot12);
    v7 := RotR(v7, Rot12);
    w := Matrix(Vec4(v0, v1, v2, v3), Vec4(v4, v5, v6, v7), Vec4(v8, v9, v10, v11), Vec4(v12, v13, v14, v15));
  }

  /** The second half, with the shorter rotations. */
  method Step2(v: Matrix<Reg>, m: Vec4<Reg>, ghost d: nat) returns (w: Matrix<Reg>)
    requires Width16(v, d) && Width4(m, d)
    ensures Width16(w, d)
    ensures forall j :: 0 <= j < d ==> LaneState(w, d, j) == Halves2(LaneState(v, d, j), LaneVec(m, d, j))
  {
    hide Add32, Add3, Xor32, Rot8, Rot7, Add3R, AddR, XorR, RotR;
    var Matrix(Vec4(v0, v1, v2, v3), Vec4(v4, v5, v6, v7), Vec4(v8, v9, v10, v11), Vec4(v12, v13, v14, v15)) := v;
    v0 := Add3R(v0, v4, m.x0);
    v1 := Add3R(v1, v5, m.x1);
    v2 := Add3R(v2, v6, m.x2);
    v3 := Add3R(v3, v7, m.x3);
    v12 := XorR(v12, v0);
    v13 := XorR(v13, v1);
    v14 := XorR(v14, v2);
    v15 := XorR(v15, v3);
    v12 := RotR(v12, Rot8);
    v13 := RotR(v13, Rot8);
    v14 := RotR(v14, Rot8);
    v15 := RotR(v15, Rot8);
    v8 := AddR(v8, v12);
    v9 := AddR(v9, v13);
    v10 := AddR(v10, v14);
    v11 := AddR(v11, v15);
    v4 := XorR(v4, v8);
    v5 := XorR(v5, v9);
    v6 := XorR(v6, v10);
    v7 := XorR(v7, v11);
    v4 := RotR(v4, Rot7);
    v5 := RotR(v5, Rot7);
    v6 := RotR(v6, Rot7);
    v7 := RotR(v7, Rot7);
    w := Matrix(Vec4(v0, v1, v2, v3), Vec4(v4, v5, v6, v7), Vec4(v8, v9, v10, v11), Vec4(v12, v13, v14, v15));
  }

  /** The registers of the diagonals: rows 1, 2 and 3 start one, two and three places on. */
  function Skew<T>(s: Matrix<T>): Matrix<T> {
    Matrix(s.r0, Vec4(s.r1.x1, s.r1.x2, s.r1.x3, s.r1.x0),
           Vec4(s.r2.x2, s.r2.x3, s.r2.x0, s.r2.x1), Vec4(s.r3.x3, s.r3.x0, s.r3.x1, s.r3.x2))
  }

  function Unskew<T>(s: Matrix<T>): Matrix<T> {
    Matrix(s.r0, Vec4(s.r1.x3, s.r1.x0, s.r1.x1, s.r1.x2),
           Vec4(s.r2.x2, s.r2.x3, s.r2.x0, s.r2.x1), Vec4(s.r3.x1, s.r3.x2, s.r3.x3, s.r3.x0))
  }

  /** A round by whole columns: all first halves, then all second halves. */
  lemma RoundBySteps(s: State, v: Words16)
    ensures Round(s, v)
         == Unskew(Halves2(Halves1(Skew(Halves2(Halves1(s, Vec4(v[0], v[2], v[4], v[6])),
                                                Vec4(v[1], v[3], v[5], v[7]))),
                                   Vec4(v[8], v[10], v[12], v[14])), Vec4(v[9], v[11], v[13], v[15])))
  {
    hide HalfG1, HalfG2;
    RowColumns(s, v);
    DiagonalsBySteps(Columns(s, v), v);
  }

  lemma DiagonalsBySteps(s: State, v: Words16)
    ensures Diagonals(s, v)
         == Unskew(Halves2(Halves1(Skew(s), Vec4(v[8], v[10], v[12], v[14])), Vec4(v[9], v[11], v[13], v[15])))
  {
    hide HalfG1, HalfG2;
  }

  /** The message words of all lanes, one register per word. */
  ghost predicate Transposed(msg: seq<Reg>, words: seq<Words16>) {
    |msg| == 16 && forall k :: 0 <= k < 16 ==>
      |msg[k]| == |words| && forall j :: 0 <= j < |words| ==> msg[k][j] == words[j][k]
  }

  /** round_fn4, round_fn8 and round_fn16 */
  method RoundFn(v: Matrix<Reg>, m: seq<Reg>, r: nat, ghost d: nat, ghost words: seq<Words16>)
    returns (w: Matrix<Reg>)
    requires r < |MSG_SCHEDULE| && |words| == d && Width16(v, d) && Transposed(m, words)
    ensures Width16(w, d)
    ensures forall j :: 0 <= j < d ==> LaneState(w, d, j) == Round(LaneState(v, d, j), Scheduled(words[j], r))
  {
    hide Halves1, Halves2, Round;
    ScheduleInRange(r);
    var s := MSG_SCHEDULE[r];
    w := Step1(v, Vec4(m[s[0]], m[s[2]], m[s[4]], m[s[6]]), d);
    w := Step2(w, Vec4(m[s[1]], m[s[3]], m[s[5]], m[s[7]]), d);
    ghost var mid := w;
    w := Step1(Skew(w), Vec4(m[s[8]], m[s[10]], m[s[12]], m[s[14]]), d);
    w := Step2(w, Vec4(m[s[9]], m[s[11]], m[s[13]], m[s[15]]), d);
    w := Unskew(w);
    forall j | 0 <= j < d
      ensures LaneState(w, d, j) == Round(LaneState(v, d, j), Scheduled(words[j], r))
    {
      RoundBySteps(LaneState(v, d, j), Scheduled(words[j], r));
      assert LaneState(Skew(mid), d, j) == Skew(LaneState(mid, d, j));
    }
  }

  // ---------- Counters of the lanes ----------

  /** The delta that a mask of the increment flag leaves to lane j. */
  function Delta(increment: bool, j: nat): nat {
    if increment then j else 0
  }

  /**
   load_counters16: 32-bit lanes only. The low words wrap around, and a carry is seen as
   a top bit that was one before the addition and is zero after it.
   */
  function LowWord16(counter: nat, increment: bool, j: nat): nat {
    (counter % TWO_32 + Delta(increment, j)) % TWO_32
  }

  function TopBit32(w: nat): nat
    requires w < TWO_32
  {
    w / 0x8000_0000
  }

  function HighWord16(counter: nat, increment: bool, j: nat): nat {
    var before, after := TopBit32(counter % TWO_32), TopBit32(LowWord16(counter, increment, j));
    var carry := if after == 0 then before else 0;
    (counter / TWO_32 % TWO_32 + carry) % TWO_32
  }

  /** The carry trick splits the sum of counter and lane number exactly, for lanes below 2^31. */
  lemma CarryTrick(counter: nat, increment: bool, j: nat)
    requires j < 0x8000_0000
    ensures LowWord16(counter, increment, j) == (counter + Delta(increment, j)) % TWO_32
    ensures HighWord16(counter, increment, j) == (counter + Delta(increment, j)) / TWO_32 % TWO_32
  {
    SplitSum(counter, Delta(increment, j));
  }

  /** Adding less than a word to a counter carries at most once into its high word. */
  lemma SplitSum(counter: nat, delta: nat)
    requires delta < TWO_32
    ensures (counter + delta) % TWO_32 == (counter % TWO_32 + delta) % TWO_32
    ensures (counter + delta) / TWO_32 == counter / TWO_32 + (if counter % TWO_32 + delta < TWO_32 then 0 else 1)
    ensures (counter + delta) / TWO_32 % TWO_32
         == (counter / TWO_32 % TWO_32 + (if counter % TWO_32 + delta < TWO_32 then 0 else 1)) % TWO_32
  {}

  /** load_counters of blake3_sse41.c: the carry by an unsigned comparison, after flipping both sign bits. */
  function HighWordSse41(counter: nat, increment: bool, j: nat): nat
    requires j < 4
  {
    var low := (counter % TWO_32 + Delta(increment, j)) % TWO_32;
    var carry := if FlipSign(Delta(increment, j)) > FlipSign(low) then 1 else 0;
    (counter / TWO_32 % TWO_32 + carry) % TWO_32
  }

  /** A word with its top bit flipped, read as a signed number. */
  function FlipSign(w: nat): int
    requires w < TWO_32
  {
    w - 0x8000_0000
  }

  lemma CompareTrick(counter: nat, increment: bool, j: nat)
    requires j < 4
    ensures HighWordSse41(counter, increment, j) == (counter + Delta(increment, j)) / TWO_32 % TWO_32
  {
    SplitSum(counter, Delta(increment, j));
  }

  /** load_counters4 and 8 of blake3_avx512.c: the sum in a 64-bit lane, which wraps around. */
  function Sum64(counter: nat, increment: bool, j: nat): nat {
    (counter % Bits.TWO_64 + Delta(increment, j)) % Bits.TWO_64
  }

  /** Truncating the 64-bit sum, and its upper half shifted down, gives both words. */
  lemma WideSum(counter: nat, increment: bool, j: nat)
    requires j < 16
    ensures Sum64(counter, increment, j) % TWO_32 == (counter + Delta(increment, j)) % TWO_32
    ensures Sum64(counter, increment, j) / TWO_32 % TWO_32 == (counter + Delta(increment, j)) / TWO_32 % TWO_32
  {
    WrapAround64(counter, Delta(increment, j));
    HalvesOf64(counter + Delta(increment, j));
  }

  lemma WrapAround64(a: nat, b: nat)
    ensures (a % Bits.TWO_64 + b) % Bits.TWO_64 == (a + b) % Bits.TWO_64
  {}

  /** Both words of a number are those of its remainder in 64 bits. */
  lemma HalvesOf64(x: nat)
    ensures x % Bits.TWO_64 % TWO_32 == x % TWO_32
    ensures x % Bits.TWO_64 / TWO_32 % TWO_32 == x / TWO_32 % TWO_32
  {
    var q, r := x / Bits.TWO_64, x % Bits.TWO_64;
    var h, l := r / TWO_32, r % TWO_32;
    assert x == (q * TWO_32 + h) * TWO_32 + l;
    assert x / TWO_32 == q * TWO_32 + h;
  }

  /** Whose 128-bit code runs; 256 and 512 bits are AVX-512's. */
  datatype Isa = Sse41 | Avx512

  /** load_counters of blake3_sse41.c, and load_counters4, 8 and 16 of blake3_avx512.c. */
  method LoadCounters(isa: Isa, d: nat, counter: nat, increment: bool) returns (low: Reg, high: Reg)
    requires d in {4, 8, 16} && (isa.Sse41? ==> d == 4)
    ensures |low| == |high| == d
    ensures forall j :: 0 <= j < d ==>
      low[j] == CounterLow(counter + Delta(increment, j)) && high[j] == CounterHigh(counter + Delta(increment, j))
  {
    hide WordOf;
    if d == 16 {
      low := seq(d, j requires 0 <= j < d => WordOf(LowWord16(counter, increment, j)));
      high := seq(d, j requires 0 <= j < d => WordOf(HighWord16(counter, increment, j)));
      forall j | 0 <= j < d
        ensures low[j] == CounterLow(counter + Delta(increment, j))
        ensures high[j] == CounterHigh(counter + Delta(increment, j))
      {
        CarryTrick(counter, increment, j);
      }
    } else if isa.Sse41? {
      low := seq(d, j requires 0 <= j < d => WordOf(LowWord16(counter, increment, j)));
      high := seq(d, j requires 0 <= j < d => WordOf(HighWordSse41(counter, increment, j)));
      forall j | 0 <= j < d
        ensures low[j] == CounterLow(counter + Delta(increment, j))
        ensures high[j] == CounterHigh(counter + Delta(increment, j))
      {
        CarryTrick(counter, increment, j);
        CompareTrick(counter, increment, j);
      }
    } else {
      low := seq(d, j requires 0 <= j < d => WordOf(Sum64(counter, increment, j) % TWO_32));
      high := seq(d, j requires 0 <= j < d => WordOf(Sum64(counter, increment, j) / TWO_32 % TWO_32));
      forall j | 0 <= j < d
        ensures low[j] == CounterLow(counter + Delta(increment, j))
        ensures high[j] == CounterHigh(counter + Delta(increment, j))
      {
        WideSum(counter, increment, j);
      }
    }
  }

  // ---------- Message words ----------

  /** The message words of each block. */
  function WordsOf(blocks: seq<Block>): (words: seq<Words16>)
    ensures |words| == |blocks|
  {
    seq(|blocks|, j requires 0 <= j < |blocks| => BlockWords(blocks[j]))
  }

  /** transpose_msg_vecs4, 8 and 16: word k of the blocks of all inputs goes to register k, d words at a time. */
  method TransposeMsgVecs(d: nat, blocks: seq<Block>) returns (msg: seq<Reg>)
    requires d in {4, 8, 16} && |blocks| == d
    ensures Transposed(msg, WordsOf(blocks))
  {
    hide BlockWords, WordIn;
    var rows := WordsOf(blocks);
    msg := [];
    for c := 0 to 16 / d
      invariant |msg| == c * d
      invariant forall k :: 0 <= k < c * d ==> |msg[k]| == d && forall j :: 0 <= j < d ==> msg[k][j] == rows[j][k]
    {
      var v := seq(d, j requires 0 <= j < d => LoadLanes(rows[j], c * d, d / 4));
      var t := Transpose(d, v);
      forall k, j | 0 <= k < d && 0 <= j < d
        ensures WordIn(t[k], j) == rows[j][c * d + k]
      {
        assert v[j] == LoadLanes(rows[j], c * d, d / 4);
        assert WordIn(t[k], j) == WordIn(v[j], k);
        LoadedWord(rows[j], c * d, d / 4, k);
      }
      msg := msg + seq(d, k requires 0 <= k < d => Flat(t[k]));
    }
  }

  // ---------- hash4, hash8 and hash16 ----------

  function BlakeMode(key: Words8): Mode {
    Mode(Blake3Compress, key, 0)
  }

  /** The chaining value words of lane j. */
  ghost function LaneCv(h: seq<Reg>, d: nat, j: nat): Words8
    requires |h| == 8 && (forall i :: 0 <= i < 8 ==> |h[i]| == d) && j < d
  {
    seq(8, i requires 0 <= i < 8 => h[i][j])
  }

  /** All seven rounds on all lanes. */
  method AllRounds(v0: Matrix<Reg>, m: seq<Reg>, ghost d: nat, ghost words: seq<Words16>) returns (v: Matrix<Reg>)
    requires |words| == d && Width16(v0, d) && Transposed(m, words)
    ensures Width16(v, d)
    ensures forall j :: 0 <= j < d ==>
      LaneState(v, d, j) == Rounds(LaneState(v0, d, j), words[j], |MSG_SCHEDULE|)
  {
    hide Round, Scheduled, LaneState;
    v := v0;
    for r := 0 to |MSG_SCHEDULE|
      invariant Width16(v, d)
      invariant forall j :: 0 <= j < d ==> LaneState(v, d, j) == Rounds(LaneState(v0, d, j), words[j], r)
    {
      v := RoundFn(v, m, r, d, words);
    }
  }

  /** One block of every lane: the eight chaining value registers move on by one compression. */
  method CompressLanes(d: nat, h0: seq<Reg>, msg: seq<Reg>, low: Reg, high: Reg, flags: Byte,
                       ghost blocks: seq<Block>, ghost counters: seq<nat>) returns (h: seq<Reg>)
    requires |h0| == 8 && (forall i :: 0 <= i < 8 ==> |h0[i]| == d)
    requires |blocks| == |low| == |high| == |counters| == d && Transposed(msg, WordsOf(blocks))
    requires forall j :: 0 <= j < d ==> low[j] == CounterLow(counters[j]) && high[j] == CounterHigh(counters[j])
    ensures |h| == 8 && (forall i :: 0 <= i < 8 ==> |h[i]| == d)
    ensures forall j :: 0 <= j < d ==>
      LaneCv(h, d, j) == Blake3Compress(LaneCv(h0, d, j), blocks[j], BLOCK_LEN, counters[j], flags)[..8]
  {
    hide Rounds, BlockWords, CounterLow, CounterHigh, WordOf, XorR, Set1, Xor32, Feed;
    var v0 := Matrix(Vec4(h0[0], h0[1], h0[2], h0[3]), Vec4(h0[4], h0[5], h0[6], h0[7]),
                     Vec4(Set1(IV[0], d), Set1(IV[1], d), Set1(IV[2], d), Set1(IV[3], d)),
                     Vec4(low, high, Set1(WordOf(BLOCK_LEN), d), Set1(flags as Word, d)));
    var v := AllRounds(v0, msg, d, WordsOf(blocks));
    h := [XorR(v.r0.x0, v.r2.x0), XorR(v.r0.x1, v.r2.x1), XorR(v.r0.x2, v.r2.x2), XorR(v.r0.x3, v.r2.x3),
          XorR(v.r1.x0, v.r3.x0), XorR(v.r1.x1, v.r3.x1), XorR(v.r1.x2, v.r3.x2), XorR(v.r1.x3, v.r3.x3)];
    forall j | 0 <= j < d
      ensures LaneCv(h, d, j) == Blake3Compress(LaneCv(h0, d, j), blocks[j], BLOCK_LEN, counters[j], flags)[..8]
    {
      var cv := LaneCv(h0, d, j);
      assert LaneState(v0, d, j) == StartState(cv, BlockInfo(BLOCK_LEN, counters[j], flags));
      FeedFirst(LaneState(v, d, j), cv);
    }
  }

  lemma FeedFirst(s: State, cv: Words8)
    ensures Feed(s, cv)[..8]
         == [Xor32(s.r0.x0, s.r2.x0), Xor32(s.r0.x1, s.r2.x1), Xor32(s.r0.x2, s.r2.x2), Xor32(s.r0.x3, s.r2.x3),
             Xor32(s.r1.x0, s.r3.x0), Xor32(s.r1.x1, s.r3.x1), Xor32(s.r1.x2, s.r3.x2), Xor32(s.r1.x3, s.r3.x3)]
  {
    hide Xor32;
  }

  function LaneCounters(d: nat, counter: nat, increment: bool): (c: seq<nat>)
    ensures |c| == d
  {
    seq(d, j requires 0 <= j < d => counter + Delta(increment, j))
  }

  /** blake3_hash4_sse41, and blake3_hash4, 8 and 16_avx512: the chaining values of d inputs at once. */
  method HashLanes(isa: Isa, d: nat, key: Words8, b: Batch, inputs: seq<seq<Byte>>, counter: nat, increment: bool)
    returns (cvs: seq<Cv>)
    requires d in {4, 8, 16} && (isa.Sse41? ==> d == 4) && |inputs| == d
    requires forall i :: 0 <= i < d ==> b.blocks * BLOCK_LEN <= |inputs[i]|
    ensures cvs == HashManyCvs(BlakeMode(key), b, inputs, counter, increment)
  {
    hide LanesAt, BlockAt, CounterLow, CounterHigh, Set1, CvOfLane, HashManyCvs, Blake3Compress, LaneCv, Or8;
    var h: seq<Reg> := seq(8, i requires 0 <= i < 8 => Set1(key[i], d));
    var low, high := LoadCounters(isa, d, counter, increment);
    ghost var counters := LaneCounters(d, counter, increment);
    var blockFlags := Or8(b.flags, b.flagsStart);
    LanesStart(key, b, inputs, counters, h);
    for block := 0 to b.blocks
      invariant |h| == 8 && forall i :: 0 <= i < 8 ==> |h[i]| == d
      invariant blockFlags == if block == 0 then Or8(b.flags, b.flagsStart) else b.flags
      invariant LanesAt(key, b, inputs, counters, h, block)
    {
      if block + 1 == b.blocks {
        blockFlags := Or8(blockFlags, b.flagsEnd);
      }
      var blocks := seq(d, j requires 0 <= j < d => BlockAt(inputs[j], block));
      ghost var h0 := h;
      var msg := TransposeMsgVecs(d, blocks);
      h := CompressLanes(d, h, msg, low, high, blockFlags, blocks, counters);
      LanesStep(key, b, inputs, counters, h0, h, block, blocks, blockFlags);
      blockFlags := b.flags;
    }
    cvs := StoreHash(d, h);
    LanesEnd(key, b, inputs, counter, increment, h);
  }

  /** Every lane is where hashing its input alone is after the given number of blocks. */
  ghost predicate LanesAt(key: Words8, b: Batch, inputs: seq<seq<Byte>>, counters: seq<nat>, h: seq<Reg>, block: nat)
    requires |inputs| == |counters| && block <= b.blocks
    requires |h| == 8 && forall i :: 0 <= i < 8 ==> |h[i]| == |inputs|
    requires forall i :: 0 <= i < |inputs| ==> b.blocks * BLOCK_LEN <= |inputs[i]|
  {
    forall j :: 0 <= j < |inputs| ==>
      LaneCv(h, |inputs|, j) == HashBlocks(BlakeMode(key), b, inputs[j], block, counters[j])
  }

  lemma LanesStart(key: Words8, b: Batch, inputs: seq<seq<Byte>>, counters: seq<nat>, h: seq<Reg>)
    requires |inputs| == |counters|
    requires |h| == 8 && forall i :: 0 <= i < 8 ==> |h[i]| == |inputs| && h[i] == Set1(key[i], |inputs|)
    requires forall i :: 0 <= i < |inputs| ==> b.blocks * BLOCK_LEN <= |inputs[i]|
    ensures LanesAt(key, b, inputs, counters, h, 0)
  {
    hide HashBlocks;
    forall j | 0 <= j < |inputs|
      ensures LaneCv(h, |inputs|, j) == HashBlocks(BlakeMode(key), b, inputs[j], 0, counters[j])
    {
      HashBlocksNone(BlakeMode(key), b, inputs[j], counters[j]);
    }
  }

  lemma LanesStep(key: Words8, b: Batch, inputs: seq<seq<Byte>>, counters: seq<nat>,
                  h0: seq<Reg>, h: seq<Reg>, block: nat, blocks: seq<Block>, flags: Byte)
    requires |inputs| == |counters| && block < b.blocks
    requires |h0| == 8 && forall i :: 0 <= i < 8 ==> |h0[i]| == |inputs|
    requires |h| == 8 && forall i :: 0 <= i < 8 ==> |h[i]| == |inputs|
    requires forall i :: 0 <= i < |inputs| ==> b.blocks * BLOCK_LEN <= |inputs[i]|
    requires LanesAt(key, b, inputs, counters, h0, block)
    requires |blocks| == |inputs| && forall j :: 0 <= j < |inputs| ==> blocks[j] == BlockAt(inputs[j], block)
    requires flags == BlockFlags(b, block)
    requires forall j :: 0 <= j < |inputs| ==>
      LaneCv(h, |inputs|, j) == Blake3Compress(LaneCv(h0, |inputs|, j), blocks[j], BLOCK_LEN, counters[j], flags)[..8]
    ensures LanesAt(key, b, inputs, counters, h, block + 1)
  {
    hide HashBlocks, Blake3Compress, BlockAt, BlockFlags, LaneCv;
    forall j | 0 <= j < |inputs|
      ensures LaneCv(h, |inputs|, j) == HashBlocks(BlakeMode(key), b, inputs[j], block + 1, counters[j])
    {
      HashBlocksStep(BlakeMode(key), b, inputs[j], block, counters[j]);
    }
  }

  lemma LanesEnd(key: Words8, b: Batch, inputs: seq<seq<Byte>>, counter: nat, increment: bool, h: seq<Reg>)
    requires |h| == 8 && forall i :: 0 <= i < 8 ==> |h[i]| == |inputs|
    requires forall i :: 0 <= i < |inputs| ==> b.blocks * BLOCK_LEN <= |inputs[i]|
    requires LanesAt(key, b, inputs, LaneCounters(|inputs|, counter, increment), h, b.blocks)
    ensures seq(|inputs|, j requires 0 <= j < |inputs| => CvOfLane(h, |inputs|, j))
         == HashManyCvs(BlakeMode(key), b, inputs, counter, increment)
  {
    hide HashBlocks, StoreWords;
    var d, counters := |inputs|, LaneCounters(|inputs|, counter, increment);
    forall j | 0 <= j < d
      ensures CvOfLane(h, d, j) == HashOneCv(BlakeMode(key), b, inputs[j], counters[j])
    {
      assert LaneCv(h, d, j) == HashBlocks(BlakeMode(key), b, inputs[j], b.blocks, counters[j]);
    }
  }

  /** The output of one lane: its eight words as bytes. */
  function CvOfLane(h: seq<Reg>, d: nat, j: nat): Cv
    requires |h| == 8 && (forall i :: 0 <= i < 8 ==> |h[i]| == d) && j < d
  {
    StoreWords(seq(8, i requires 0 <= i < 8 => h[i][j]))
  }

  /** As many registers as lanes, seen as rows of 128-bit lanes. */
  function LaneRows(d: nat, regs: seq<Reg>): (v: seq<Lanes>)
    requires d in {4, 8, 16} && |regs| == d && forall i :: 0 <= i < d ==> |regs[i]| == d
    ensures Square(v, d / 4)
  {
    seq(d, k requires 0 <= k < d => LoadLanes(regs[k], 0, d / 4))
  }

  /** Rows of registers, transposed d at a time: column j is what lane j holds. */
  method TransposeRegs(d: nat, regs: seq<Reg>) returns (cols: seq<seq<Word>>)
    requires d in {4, 8, 16} && |regs| % d == 0 && forall i :: 0 <= i < |regs| ==> |regs[i]| == d
    ensures |cols| == d
    ensures forall j :: 0 <= j < d ==> |cols[j]| == |regs| && forall k :: 0 <= k < |regs| ==> cols[j][k] == regs[k][j]
  {
    hide WordIn;
    cols := seq(d, _ => []);
    for c := 0 to |regs| / d
      invariant |cols| == d
      invariant forall j :: 0 <= j < d ==> |cols[j]| == c * d && forall k :: 0 <= k < c * d ==> cols[j][k] == regs[k][j]
    {
      var v := LaneRows(d, regs[c * d..(c + 1) * d]);
      var t := Transpose(d, v);
      forall j, k | 0 <= j < d && 0 <= k < d
        ensures WordIn(t[j], k) == regs[c * d + k][j]
      {
        assert WordIn(t[j], k) == WordIn(v[k], j);
        LoadedWord(regs[c * d + k], 0, d / 4, j);
      }
      cols := seq(d, j requires 0 <= j < d => cols[j] + Flat(t[j]));
    }
  }

  /** The stores at the end of hash4, hash8 and hash16; sixteen lanes are transposed with eight rows of padding. */
  method StoreHash(d: nat, h: seq<Reg>) returns (cvs: seq<Cv>)
    requires d in {4, 8, 16} && |h| == 8 && forall i :: 0 <= i < 8 ==> |h[i]| == d
    ensures cvs == seq(d, j requires 0 <= j < d => CvOfLane(h, d, j))
  {
    hide StoreWords, Set1;
    var regs := if d == 16 then h + seq(8, _ => Set1(0, 16)) else h;
    var cols := TransposeRegs(d, regs);
    cvs := seq(d, j requires 0 <= j < d => StoreWords(cols[j][..8]));
    forall j | 0 <= j < d
      ensures cvs[j] == CvOfLane(h, d, j)
    {
      assert cols[j][..8] == seq(8, i requires 0 <= i < 8 => h[i][j]);
    }
  }

  method StoreLanes(cvs: seq<Cv>, out: array<Cv>, at: nat)
    requires at + |cvs| <= out.Length
    modifies out
    ensures Holds(out, at, cvs)
    ensures forall i :: 0 <= i < out.Length && !(at <= i < at + |cvs|) ==> out[i] == old(out[i])
  {
    forall i | at <= i < at + |cvs| {
      out[i] := cvs[i - at];
    }
  }

  // ---------- hash_many ----------

  lemma HashManySplit(m: Mode, b: Batch, inputs: seq<seq<Byte>>, k: nat, n: nat, counter: nat, increment: bool)
    requires forall i :: 0 <= i < |inputs| ==> b.blocks * BLOCK_LEN <= |inputs[i]|
    requires k + n <= |inputs|
    ensures HashManyCvs(m, b, inputs[..k + n], counter, increment)
         == HashManyCvs(m, b, inputs[..k], counter, increment)
            + HashManyCvs(m, b, inputs[k..k + n], counter + Delta(increment, k), increment)
  {
    hide HashOneCv;
  }

  /** The first k inputs are done, and nothing behind their slots was touched. */
  ghost predicate Done(m: Mode, b: Batch, inputs: seq<seq<Byte>>, k: nat, counter: nat, increment: bool,
                       out: array<Cv>, at: nat)
    requires forall i :: 0 <= i < |inputs| ==> b.blocks * BLOCK_LEN <= |inputs[i]|
    reads out
  {
    k <= |inputs| && Holds(out, at, HashManyCvs(m, b, inputs[..k], counter, increment))
  }

  /** One of the loops that take d inputs at a time while there are as many. */
  method RunBatches(isa: Isa, d: nat, key: Words8, b: Batch, inputs: seq<seq<Byte>>, k0: nat,
                    counter0: nat, counterNow: nat, increment: bool, out: array<Cv>, at: nat)
    returns (k: nat, counter: nat)
    requires d in {4, 8, 16} && (isa.Sse41? ==> d == 4) && at + |inputs| <= out.Length
    requires forall i :: 0 <= i < |inputs| ==> b.blocks * BLOCK_LEN <= |inputs[i]|
    requires Done(BlakeMode(key), b, inputs, k0, counter0, increment, out, at)
    requires counterNow == counter0 + Delta(increment, k0)
    modifies out
    ensures Done(BlakeMode(key), b, inputs, k, counter0, increment, out, at) && |inputs| - k < d
    ensures counter == counter0 + Delta(increment, k)
    ensures forall i :: 0 <= i < out.Length && !(at <= i < at + |inputs|) ==> out[i] == old(out[i])
  {
    hide HashManyCvs, BlakeMode;
    k, counter := k0, counterNow;
    while |inputs| - k >= d
      invariant Done(BlakeMode(key), b, inputs, k, counter0, increment, out, at)
      invariant counter == counter0 + Delta(increment, k)
      invariant forall i :: 0 <= i < out.Length && !(at <= i < at + |inputs|) ==> out[i] == old(out[i])
    {
      HashManySplit(BlakeMode(key), b, inputs, k, d, counter0, increment);
      var cvs := HashLanes(isa, d, key, b, inputs[k..k + d], counter, increment);
      StoreLanes(cvs, out, at + k);
      if increment {
        counter := counter + d;
      }
      k := k + d;
    }
  }

  /** The last loop of hash_many, one input at a time. */
  method RunOnes(key: Words8, b: Batch, inputs: seq<seq<Byte>>, k0: nat, counter0: nat, counterNow: nat,
                 increment: bool, out: array<Cv>, at: nat)
    requires at + |inputs| <= out.Length
    requires forall i :: 0 <= i < |inputs| ==> b.blocks * BLOCK_LEN <= |inputs[i]|
    requires Done(BlakeMode(key), b, inputs, k0, counter0, increment, out, at)
    requires counterNow == counter0 + Delta(increment, k0)
    modifies out
    ensures Holds(out, at, HashManyCvs(BlakeMode(key), b, inputs, counter0, increment))
    ensures forall i :: 0 <= i < out.Length && !(at <= i < at + |inputs|) ==> out[i] == old(out[i])
  {
    hide HashManyCvs, BlakeMode, HashOneCv;
    var k, counter := k0, counterNow;
    while |inputs| - k > 0
      invariant Done(BlakeMode(key), b, inputs, k, counter0, increment, out, at)
      invariant counter == counter0 + Delta(increment, k)
      invariant forall i :: 0 <= i < out.Length && !(at <= i < at + |inputs|) ==> out[i] == old(out[i])
    {
      HashManySplit(BlakeMode(key), b, inputs, k, 1, counter0, increment);
      HashManyOfOne(BlakeMode(key), b, inputs[k..k + 1], counter, increment);
      out[at + k] := HashOne(BlakeMode(key), b, inputs[k], counter);
      if increment {
        counter := counter + 1;
      }
      k := k + 1;
    }
    assert inputs[..k] == inputs;
  }

  /** The flags of a mode come with the batch: only its compression and its key matter here. */
  lemma {:induction false} SameBlocks(m: Mode, m': Mode, b: Batch, input: seq<Byte>, i: nat, counter: nat)
    requires m.compress == m'.compress && m.key == m'.key && i * BLOCK_LEN <= |input|
    ensures HashBlocks(m, b, input, i, counter) == HashBlocks(m', b, input, i, counter)
  {
    if i > 0 {
      SameBlocks(m, m', b, input, i - 1, counter);
    }
  }

  lemma SameCvs(m: Mode, m': Mode, b: Batch, inputs: seq<seq<Byte>>, counter: nat, increment: bool)
    requires m.compress == m'.compress && m.key == m'.key
    requires forall i :: 0 <= i < |inputs| ==> b.blocks * BLOCK_LEN <= |inputs[i]|
    ensures HashManyCvs(m, b, inputs, counter, increment) == HashManyCvs(m', b, inputs, counter, increment)
  {
    hide HashBlocks;
    forall i | 0 <= i < |inputs|
      ensures HashManyCvs(m, b, inputs, counter, increment)[i] == HashManyCvs(m', b, inputs, counter, increment)[i]
    {
      SameBlocks(m, m', b, inputs[i], b.blocks, counter + Delta(increment, i));
    }
  }

  /**
   blake3_hash_many_avx512: batches of 16, 8 and 4, then one by one; the contract of the portable loop,
   for every mode with the BLAKE3 compression.
   */
  method HashManyBatched(m: Mode, b: Batch, inputs: seq<seq<Byte>>, counter0: nat, increment: bool,
                         out: array<Cv>, at: nat)
    requires m.compress == Blake3Compress && at + |inputs| <= out.Length
    requires forall i :: 0 <= i < |inputs| ==> b.blocks * BLOCK_LEN <= |inputs[i]|
    modifies out
    ensures Holds(out, at, HashManyCvs(m, b, inputs, counter0, increment))
    ensures forall i :: 0 <= i < out.Length && !(at <= i < at + |inputs|) ==> out[i] == old(out[i])
  {
    hide HashManyCvs, Blake3Compress;
    var k, counter := 0, counter0;
    NothingDone(m.key, b, inputs, counter0, increment, out, at);
    k, counter := RunBatches(Avx512, 16, m.key, b, inputs, k, counter0, counter, increment, out, at);
    k, counter := RunBatches(Avx512, 8, m.key, b, inputs, k, counter0, counter, increment, out, at);
    k, counter := RunBatches(Avx512, 4, m.key, b, inputs, k, counter0, counter, increment, out, at);
    RunOnes(m.key, b, inputs, k, counter0, counter, increment, out, at);
    SameCvs(m, BlakeMode(m.key), b, inputs, counter0, increment);
  }

  /** blake3_hash_many_sse41: batches of 4, then one by one. */
  method HashManySse41(m: Mode, b: Batch, inputs: seq<seq<Byte>>, counter0: nat, increment: bool,
                       out: array<Cv>, at: nat)
    requires m.compress == Blake3Compress && at + |inputs| <= out.Length
    requires forall i :: 0 <= i < |inputs| ==> b.blocks * BLOCK_LEN <= |inputs[i]|
    modifies out
    ensures Holds(out, at, HashManyCvs(m, b, inputs, counter0, increment))
    ensures forall i :: 0 <= i < out.Length && !(at <= i < at + |inputs|) ==> out[i] == old(out[i])
  {
    hide HashManyCvs, Blake3Compress;
    NothingDone(m.key, b, inputs, counter0, increment, out, at);
    var k, counter := RunBatches(Sse41, 4, m.key, b, inputs, 0, counter0, counter0, increment, out, at);
    RunOnes(m.key, b, inputs, k, counter0, counter, increment, out, at);
    SameCvs(m, BlakeMode(m.key), b, inputs, counter0, increment);
  }

  lemma NothingDone(key: Words8, b: Batch, inputs: seq<seq<Byte>>, counter: nat, increment: bool,
                    out: array<Cv>, at: nat)
    requires forall i :: 0 <= i < |inputs| ==> b.blocks * BLOCK_LEN <= |inputs[i]|
    requires at <= out.Length
    ensures Done(BlakeMode(key), b, inputs, 0, counter, increment, out, at)
  {}

  lemma HashManyOfOne(m: Mode, b: Batch, inputs: seq<seq<Byte>>, counter: nat, increment: bool)
    requires |inputs| == 1 && b.blocks * BLOCK_LEN <= |inputs[0]|
    ensures HashManyCvs(m, b, inputs, counter, increment) == [HashOneCv(m, b, inputs[0], counter)]
  {
    hide HashOneCv;
  }
}
