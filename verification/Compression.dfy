/**
 The BLAKE3 compression function: its definition (section 2.2 of the BLAKE3
 specification), and the portable C code that updates a 16-word state in place.
 */
module Compression {

  type Word = bv32
  type Byte = bv8

  type Words8 = s: seq<Word> | |s| == 8 witness [0, 0, 0, 0, 0, 0, 0, 0]
  type Words16 = s: seq<Word> | |s| == 16
    witness [0, 0, 0, 0, 0, 0, 0, 0, 0, 0, 0, 0, 0, 0, 0, 0]
  type Block = s: seq<Byte> | |s| == BLOCK_LEN witness seq(BLOCK_LEN, _ => 0 as Byte)
  /** A chaining value as bytes. */
  type Cv = s: seq<Byte> | |s| == OUT_LEN witness seq(OUT_LEN, _ => 0 as Byte)

  /** Input chaining value, block, block length, counter and flags to the sixteen output words. */
  type Compress = (Words8, Block, nat, nat, Byte) -> Words16

  const OUT_LEN: nat := 32
  const BLOCK_LEN: nat := 64
  const CHUNK_LEN: nat := 1024

  const CHUNK_START: Byte := 1
  const CHUNK_END: Byte := 2
  const PARENT: Byte := 4
  const ROOT: Byte := 8

  const IV: Words8 := [
    0x6A09E667, 0xBB67AE85, 0x3C6EF372, 0xA54FF53A, 0x510E527F, 0x9B05688C, 0x1F83D9AB, 0x5BE0CD19]

  const MSG_SCHEDULE: seq<seq<nat>> := [
    [0, 1, 2, 3, 4, 5, 6, 7, 8, 9, 10, 11, 12, 13, 14, 15],
    [2, 6, 3, 10, 7, 0, 4, 13, 1, 11, 12, 5, 9, 14, 15, 8],
    [3, 4, 10, 12, 13, 2, 7, 14, 6, 5, 9, 0, 11, 15, 8, 1],
    [10, 7, 12, 9, 14, 3, 13, 15, 4, 0, 11, 2, 5, 8, 1, 6],
    [12, 13, 9, 11, 15, 10, 14, 8, 7, 2, 5, 3, 0, 1, 6, 4],
    [9, 14, 11, 5, 8, 12, 15, 1, 13, 3, 0, 10, 2, 6, 4, 7],
    [11, 15, 5, 0, 1, 9, 8, 6, 14, 10, 2, 12, 3, 4, 7, 13]]

  // ---------- Words and bytes ----------

  function Load32(b0: Byte, b1: Byte, b2: Byte, b3: Byte): Word {
    b0 as Word | (b1 as Word << 8) | (b2 as Word << 16) | (b3 as Word << 24)
  }

  function Store32(w: Word): seq<Byte>
    ensures |Store32(w)| == 4
  {
    [(w & 0xff) as Byte, ((w >> 8) & 0xff) as Byte, ((w >> 16) & 0xff) as Byte, ((w >> 24) & 0xff) as Byte]
  }

  /** Little-endian bytes of a row of words. */
  function StoreWords(ws: seq<Word>): (bs: seq<Byte>)
    ensures |bs| == 4 * |ws|
  {
    if ws == [] then [] else Store32(ws[0]) + StoreWords(ws[1..])
  }

  function LoadWords(bs: seq<Byte>): (ws: seq<Word>)
    requires |bs| % 4 == 0
    ensures |ws| == |bs| / 4
  {
    if bs == [] then [] else [Load32(bs[0], bs[1], bs[2], bs[3])] + LoadWords(bs[4..])
  }

  lemma LoadStore32(w: Word)
    ensures var b := Store32(w); Load32(b[0], b[1], b[2], b[3]) == w
  {}

  lemma {:induction false} LoadStoreWords(ws: seq<Word>)
    ensures LoadWords(StoreWords(ws)) == ws
  {
    if ws != [] {
      LoadStore32(ws[0]);
      LoadStoreWords(ws[1..]);
      assert StoreWords(ws)[4..] == StoreWords(ws[1..]);
    }
  }

  const TWO_32: nat := 0x1_0000_0000

  /** The word reached from zero after n increments: n modulo 2^32. */
  function WordOf(n: nat): Word {
    if n == 0 then 0 else WordOf(n - 1) + 1
  }

  function CounterLow(counter: nat): Word { WordOf(counter % TWO_32) }

  function CounterHigh(counter: nat): Word { WordOf(counter / TWO_32 % TWO_32) }

  // ---------- The compression function ----------

  // The word operations are named, so that proofs can hide them and compare terms instead of bits.

  function Add32(a: Word, b: Word): Word { a + b }

  function Add3(a: Word, b: Word, c: Word): Word { a + b + c }

  function Xor32(a: Word, b: Word): Word { a ^ b }

  function Rot16(w: Word): Word { (w >> 16) | (w << 16) }

  function Rot12(w: Word): Word { (w >> 12) | (w << 20) }

  function Rot8(w: Word): Word { (w >> 8) | (w << 24) }

  function Rot7(w: Word): Word { (w >> 7) | (w << 25) }

  datatype Vec4<T> = Vec4(x0: T, x1: T, x2: T, x3: T)

  /** A 4 x 4 matrix of rows. */
  datatype Matrix<T> = Matrix(r0: Vec4<T>, r1: Vec4<T>, r2: Vec4<T>, r3: Vec4<T>)

  /** The sixteen state words. */
  type State = Matrix<Word>

  /** First half of the quarter-round: a message word goes in, the other three words follow. */
  function HalfG1(q: Vec4<Word>, m: Word): Vec4<Word> {
    var a := Add3(q.x0, q.x1, m);
    var d := Rot16(Xor32(q.x3, a));
    var c := Add32(q.x2, d);
    Vec4(a, Rot12(Xor32(q.x1, c)), c, d)
  }

  /** Second half, with the shorter rotations. */
  function HalfG2(q: Vec4<Word>, m: Word): Vec4<Word> {
    var a := Add3(q.x0, q.x1, m);
    var d := Rot8(Xor32(q.x3, a));
    var c := Add32(q.x2, d);
    Vec4(a, Rot7(Xor32(q.x1, c)), c, d)
  }

  function QuarterRound(q: Vec4<Word>, x: Word, y: Word): Vec4<Word> {
    HalfG2(HalfG1(q, x), y)
  }

  /** A column step: each column of the state takes two message words. */
  function Columns(s: State, v: Words16): State {
    var c0 := QuarterRound(Vec4(s.r0.x0, s.r1.x0, s.r2.x0, s.r3.x0), v[0], v[1]);
    var c1 := QuarterRound(Vec4(s.r0.x1, s.r1.x1, s.r2.x1, s.r3.x1), v[2], v[3]);
    var c2 := QuarterRound(Vec4(s.r0.x2, s.r1.x2, s.r2.x2, s.r3.x2), v[4], v[5]);
    var c3 := QuarterRound(Vec4(s.r0.x3, s.r1.x3, s.r2.x3, s.r3.x3), v[6], v[7]);
    Matrix(Vec4(c0.x0, c1.x0, c2.x0, c3.x0), Vec4(c0.x1, c1.x1, c2.x1, c3.x1),
          Vec4(c0.x2, c1.x2, c2.x2, c3.x2), Vec4(c0.x3, c1.x3, c2.x3, c3.x3))
  }

  /** A diagonal step. */
  function Diagonals(s: State, v: Words16): State {
    var d0 := QuarterRound(Vec4(s.r0.x0, s.r1.x1, s.r2.x2, s.r3.x3), v[8], v[9]);
    var d1 := QuarterRound(Vec4(s.r0.x1, s.r1.x2, s.r2.x3, s.r3.x0), v[10], v[11]);
    var d2 := QuarterRound(Vec4(s.r0.x2, s.r1.x3, s.r2.x0, s.r3.x1), v[12], v[13]);
    var d3 := QuarterRound(Vec4(s.r0.x3, s.r1.x0, s.r2.x1, s.r3.x2), v[14], v[15]);
    Matrix(Vec4(d0.x0, d1.x0, d2.x0, d3.x0), Vec4(d3.x1, d0.x1, d1.x1, d2.x1),
          Vec4(d2.x2, d3.x2, d0.x2, d1.x2), Vec4(d1.x3, d2.x3, d3.x3, d0.x3))
  }

  /** The four columns, then the four diagonals, with the message words taken in order. */
  function Round(s: State, v: Words16): State {
    Diagonals(Columns(s, v), v)
  }

  /** The message words in the order of round r. */
  function Scheduled(m: Words16, r: nat): Words16
    requires r < |MSG_SCHEDULE|
  {
    ScheduleInRange(r);
    seq(16, i requires 0 <= i < 16 => m[MSG_SCHEDULE[r][i]])
  }

  lemma ScheduleInRange(r: nat)
    requires r < |MSG_SCHEDULE|
    ensures |MSG_SCHEDULE[r]| == 16
    ensures forall i :: 0 <= i < 16 ==> MSG_SCHEDULE[r][i] < 16
  {}

  function Rounds(s: State, m: Words16, r: nat): State
    requires r <= |MSG_SCHEDULE|
  {
    if r == 0 then s else Round(Rounds(s, m, r - 1), Scheduled(m, r - 1))
  }

  /** The words a block brings along besides the chaining value: counter, length and flags. */
  function BlockInfo(blockLen: nat, counter: nat, flags: Byte): Vec4<Word> {
    Vec4(CounterLow(counter), CounterHigh(counter), WordOf(blockLen), flags as Word)
  }

  function StartState(cv: Words8, info: Vec4<Word>): State {
    Matrix(Vec4(cv[0], cv[1], cv[2], cv[3]), Vec4(cv[4], cv[5], cv[6], cv[7]),
          Vec4(IV[0], IV[1], IV[2], IV[3]), info)
  }

  function RowSeq(v: Vec4<Word>): (s: seq<Word>)
    ensures |s| == 4
  {
    [v.x0, v.x1, v.x2, v.x3]
  }

  function BlockWords(block: Block): Words16 {
    LoadWords(block)
  }

  /** Word i of the state, row by row. */
  function WordAt<T>(s: Matrix<T>, i: nat): T
    requires i < 16
  {
    var row := if i < 4 then s.r0 else if i < 8 then s.r1 else if i < 12 then s.r2 else s.r3;
    if i % 4 == 0 then row.x0 else if i % 4 == 1 then row.x1 else if i % 4 == 2 then row.x2 else row.x3
  }

  /** The output words of a finished state. */
  function Feed(s: State, cv: Words8): Words16 {
    seq(16, i requires 0 <= i < 16 =>
      if i < 8 then Xor32(WordAt(s, i), WordAt(s, i + 8)) else Xor32(WordAt(s, i), cv[i - 8]))
  }

  /** The sixteen output words of BLAKE3; the first eight are the new chaining value. */
  function Blake3Compress(cv: Words8, block: Block, blockLen: nat, counter: nat, flags: Byte): Words16 {
    Feed(Rounds(StartState(cv, BlockInfo(blockLen, counter, flags)), BlockWords(block), |MSG_SCHEDULE|), cv)
  }

  // ---------- blake3_portable.c ----------

  ghost function StateOf(a: array<Word>): State
    requires a.Length == 16
    reads a
  {
    Matrix(Vec4(a[0], a[1], a[2], a[3]), Vec4(a[4], a[5], a[6], a[7]),
          Vec4(a[8], a[9], a[10], a[11]), Vec4(a[12], a[13], a[14], a[15]))
  }

  lemma StateWords(a: array<Word>)
    requires a.Length == 16
    ensures forall i :: 0 <= i < 16 ==> WordAt(StateOf(a), i) == a[i]
  {
    forall i | 0 <= i < 16
      ensures WordAt(StateOf(a), i) == a[i]
    {
      if i < 4 {
      } else if i < 8 {
      } else if i < 12 {
      } else {
      }
    }
  }

  /** The first half of g, in place. */
  method MixHalf1(state: array<Word>, a: nat, b: nat, c: nat, d: nat, m: Word)
    requires state.Length == 16 && a < 4 <= b < 8 <= c < 12 <= d < 16
    modifies state
    ensures Vec4(state[a], state[b], state[c], state[d])
         == HalfG1(Vec4(old(state[a]), old(state[b]), old(state[c]), old(state[d])), m)
    ensures forall i :: 0 <= i < 16 && i != a && i != b && i != c && i != d ==> state[i] == old(state[i])
  {
    hide Add32, Add3, Xor32, Rot16, Rot12, Rot8, Rot7;
    state[a] := Add3(state[a], state[b], m);
    state[d] := Rot16(Xor32(state[d], state[a]));
    state[c] := Add32(state[c], state[d]);
    state[b] := Rot12(Xor32(state[b], state[c]));
  }

  /** The second half of g, in place. */
  method MixHalf2(state: array<Word>, a: nat, b: nat, c: nat, d: nat, m: Word)
    requires state.Length == 16 && a < 4 <= b < 8 <= c < 12 <= d < 16
    modifies state
    ensures Vec4(state[a], state[b], state[c], state[d])
         == HalfG2(Vec4(old(state[a]), old(state[b]), old(state[c]), old(state[d])), m)
    ensures forall i :: 0 <= i < 16 && i != a && i != b && i != c && i != d ==> state[i] == old(state[i])
  {
    hide Add32, Add3, Xor32, Rot16, Rot12, Rot8, Rot7;
    state[a] := Add3(state[a], state[b], m);
    state[d] := Rot8(Xor32(state[d], state[a]));
    state[c] := Add32(state[c], state[d]);
    state[b] := Rot7(Xor32(state[b], state[c]));
  }

  /** g: mixes two message words into four words of the state, in place. */
  method G(state: array<Word>, a: nat, b: nat, c: nat, d: nat, x: Word, y: Word)
    requires state.Length == 16 && a < 4 <= b < 8 <= c < 12 <= d < 16
    modifies state
    ensures Vec4(state[a], state[b], state[c], state[d])
         == QuarterRound(Vec4(old(state[a]), old(state[b]), old(state[c]), old(state[d])), x, y)
    ensures forall i :: 0 <= i < 16 && i != a && i != b && i != c && i != d ==> state[i] == old(state[i])
  {
    hide HalfG1, HalfG2;
    MixHalf1(state, a, b, c, d, x);
    MixHalf2(state, a, b, c, d, y);
  }

  method MixColumns(state: array<Word>, v: Words16)
    requires state.Length == 16
    modifies state
    ensures StateOf(state) == Columns(old(StateOf(state)), v)
  {
    hide QuarterRound;
    G(state, 0, 4, 8, 12, v[0], v[1]);
    G(state, 1, 5, 9, 13, v[2], v[3]);
    G(state, 2, 6, 10, 14, v[4], v[5]);
    G(state, 3, 7, 11, 15, v[6], v[7]);
  }

  method MixRows(state: array<Word>, v: Words16)
    requires state.Length == 16
    modifies state
    ensures StateOf(state) == Diagonals(old(StateOf(state)), v)
  {
    hide QuarterRound;
    G(state, 0, 5, 10, 15, v[8], v[9]);
    G(state, 1, 6, 11, 12, v[10], v[11]);
    G(state, 2, 7, 8, 13, v[12], v[13]);
    G(state, 3, 4, 9, 14, v[14], v[15]);
  }

  method RoundFn(state: array<Word>, msg: Words16, round: nat)
    requires state.Length == 16 && round < |MSG_SCHEDULE|
    modifies state
    ensures StateOf(state) == Round(old(StateOf(state)), Scheduled(msg, round))
  {
    hide Columns, Diagonals, StateOf;
    var v := Scheduled(msg, round);
    MixColumns(state, v);
    MixRows(state, v);
  }

  method LoadState(state: array<Word>, cv: Words8, info: Vec4<Word>)
    requires state.Length == 16
    modifies state
    ensures StateOf(state) == StartState(cv, info)
  {
    var words := cv + IV[..4] + RowSeq(info);
    forall i | 0 <= i < 16 {
      state[i] := words[i];
    }
  }

  /** compress_pre: loads the state and runs the seven rounds. */
  method CompressPre(state: array<Word>, cv: Words8, block: Block, info: Vec4<Word>)
    requires state.Length == 16
    modifies state
    ensures StateOf(state) == Rounds(StartState(cv, info), BlockWords(block), |MSG_SCHEDULE|)
  {
    hide Round, BlockWords, StartState, StateOf;
    var blockWords := BlockWords(block);
    LoadState(state, cv, info);
    ghost var s := StateOf(state);
    for r := 0 to |MSG_SCHEDULE|
      invariant StateOf(state) == Rounds(s, blockWords, r)
    {
      RoundFn(state, blockWords, r);
    }
  }

  /** blake3_compress_in_place_portable: the chaining value array becomes the new chaining value. */
  method CompressInPlacePortable(cv: array<Word>, block: Block, blockLen: nat, counter: nat, flags: Byte)
    requires cv.Length == 8
    modifies cv
    ensures cv[..] == Blake3Compress(old(cv[..]), block, blockLen, counter, flags)[..8]
  {
    hide Rounds, StartState, BlockWords, BlockInfo, WordAt, Xor32;
    ghost var cv0 := cv[..];
    var state := new Word[16];
    CompressPre(state, cv[..], block, BlockInfo(blockLen, counter, flags));
    ghost var s := StateOf(state);
    StateWords(state);
    forall i | 0 <= i < 8 {
      cv[i] := Xor32(state[i], state[i + 8]);
    }
    assert cv[..] == Feed(s, cv0)[..8];
  }

  /** blake3_compress_xof_portable: all sixteen output words, as bytes. */
  method CompressXofPortable(cv: Words8, block: Block, blockLen: nat, counter: nat, flags: Byte)
    returns (out: Block)
    ensures out == StoreWords(Blake3Compress(cv, block, blockLen, counter, flags))
  {
    hide Rounds, StartState, BlockWords, BlockInfo, WordAt, Xor32, StoreWords;
    var state := new Word[16];
    CompressPre(state, cv, block, BlockInfo(blockLen, counter, flags));
    ghost var s := StateOf(state);
    StateWords(state);
    var words := new Word[16];
    forall i | 0 <= i < 8 {
      words[i] := Xor32(state[i], state[i + 8]);
    }
    forall i | 8 <= i < 16 {
      words[i] := Xor32(state[i], cv[i - 8]);
    }
    assert words[..] == Feed(s, cv);
    out := StoreWords(words[..]);
  }
}
