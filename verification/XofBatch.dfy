/**
 Batched extended output: blake3_avx512.c computes 16, 8 or 4 blocks of the output stream
 at once, one counter per lane, and is proved to write the same bytes as one block after
 the other.
 */
module XofBatches {
  import opened Compression
  import opened Tree
  import opened Batches
  import opened Hasher

  lemma LaneWord(v: Matrix<Reg>, d: nat, j: nat, i: nat)
    requires Width16(v, d) && j < d && i < 16
    ensures |WordAt(v, i)| == d && WordAt(LaneState(v, d, j), i) == WordAt(v, i)[j]
  {}

  /** The registers after feeding forward: the lanes' output words. */
  function FeedRegs(v: Matrix<Reg>, h: seq<Reg>, ghost d: nat): (outs: seq<Reg>)
    requires Width16(v, d) && |h| == 8 && forall i :: 0 <= i < 8 ==> |h[i]| == d
    ensures |outs| == 16 && forall i :: 0 <= i < 16 ==> |outs[i]| == d
  {
    seq(16, i requires 0 <= i < 16 =>
      if i < 8 then XorR(WordAt(v, i), WordAt(v, i + 8)) else XorR(WordAt(v, i), h[i - 8]))
  }

  lemma FeedLane(v: Matrix<Reg>, h: seq<Reg>, cv: Words8, d: nat, j: nat)
    requires Width16(v, d) && |h| == 8 && j < d
    requires forall i :: 0 <= i < 8 ==> |h[i]| == d && h[i][j] == cv[i]
    ensures seq(16, i requires 0 <= i < 16 => FeedRegs(v, h, d)[i][j]) == Feed(LaneState(v, d, j), cv)
  {
    hide WordAt, LaneState, Xor32, XorR;
    var words := seq(16, i requires 0 <= i < 16 => FeedRegs(v, h, d)[i][j]);
    forall i | 0 <= i < 16
      ensures words[i] == Feed(LaneState(v, d, j), cv)[i]
    {
      LaneWord(v, d, j, i);
      if i < 8 {
        LaneWord(v, d, j, i + 8);
        assert FeedRegs(v, h, d)[i] == XorR(WordAt(v, i), WordAt(v, i + 8));
      } else {
        assert FeedRegs(v, h, d)[i] == XorR(WordAt(v, i), h[i - 8]);
        assert h[i - 8][j] == cv[i - 8];
      }
    }
  }

  /** Block i of the output stream, for given inputs of the last compression. */
  function XofBlock(cv: Words8, block: Block, blockLen: nat, flags: Byte, i: nat): Block {
    StoreWords(Blake3Compress(cv, block, blockLen, i, flags))
  }

  /** blake3_xof4, 8 and 16_avx512 */
  method XofLanes(d: nat, cv: Words8, block: Block, blockLen: nat, counter: nat, flags: Byte)
    returns (blocks: seq<Block>)
    requires d in {4, 8, 16}
    ensures |blocks| == d && forall j :: 0 <= j < d ==> blocks[j] == XofBlock(cv, block, blockLen, flags, counter + j)
  {
    hide Rounds, BlockWords, CounterLow, CounterHigh, WordOf, XorR, Set1, Xor32, Feed, FeedRegs, StoreWords;
    var h: seq<Reg> := seq(8, i requires 0 <= i < 8 => Set1(cv[i], d));
    var words := BlockWords(block);
    var msg := seq(16, k requires 0 <= k < 16 => Set1(words[k], d));
    var low, high := LoadCounters(Avx512, d, counter, true);
    var v0 := Matrix(Vec4(h[0], h[1], h[2], h[3]), Vec4(h[4], h[5], h[6], h[7]),
                     Vec4(Set1(IV[0], d), Set1(IV[1], d), Set1(IV[2], d), Set1(IV[3], d)),
                     Vec4(low, high, Set1(WordOf(blockLen), d), Set1(flags as Word, d)));
    var v := AllRounds(v0, msg, d, seq(d, _ => words));
    var outs := FeedRegs(v, h, d);
    var cols := TransposeRegs(d, outs);
    blocks := seq(d, j requires 0 <= j < d => StoreWords(cols[j]));
    forall j | 0 <= j < d
      ensures blocks[j] == XofBlock(cv, block, blockLen, flags, counter + j)
    {
      assert LaneState(v0, d, j) == StartState(cv, BlockInfo(blockLen, counter + j, flags));
      FeedLane(v, h, cv, d, j);
      assert cols[j] == seq(16, i requires 0 <= i < 16 => outs[i][j]);
    }
  }

  /** Whole blocks of the output stream, behind those written already. */
  method StoreBlocks(m: Mode, o: Output, counter: nat, out: array<Byte>, at: nat, done: nat, blocks: seq<Block>)
    requires at + (done + |blocks|) * BLOCK_LEN <= out.Length
    requires Streams(m, o, counter * BLOCK_LEN, out, at, done * BLOCK_LEN)
    requires forall j :: 0 <= j < |blocks| ==> blocks[j] == RootBlock(m, o, counter + done + j)
    modifies out
    ensures Streams(m, o, counter * BLOCK_LEN, out, at, (done + |blocks|) * BLOCK_LEN)
    ensures forall i :: 0 <= i < out.Length && !(at + done * BLOCK_LEN <= i < at + (done + |blocks|) * BLOCK_LEN) ==>
      out[i] == old(out[i])
  {
    hide RootBlock;
    var start := at + done * BLOCK_LEN;
    forall i | start <= i < start + |blocks| * BLOCK_LEN {
      out[i] := blocks[(i - start) / BLOCK_LEN][(i - start) % BLOCK_LEN];
    }
    forall i | start <= i < start + |blocks| * BLOCK_LEN
      ensures out[i] == RootByte(m, o, counter * BLOCK_LEN + (i - at))
    {
      assert counter * BLOCK_LEN + (i - at) == (counter + done) * BLOCK_LEN + (i - start);
      SplitByte(counter + done, i - start);
    }
  }

  lemma SplitByte(block: nat, i: nat)
    ensures (block * BLOCK_LEN + i) / BLOCK_LEN == block + i / BLOCK_LEN
    ensures (block * BLOCK_LEN + i) % BLOCK_LEN == i % BLOCK_LEN
  {}

  /** One of the loops that take d blocks at a time while there are as many. */
  method RunXof(d: nat, m: Mode, o: Output, counter: nat, out: array<Byte>, at: nat, outBlocks: nat, done0: nat)
    returns (done: nat)
    requires d in {4, 8, 16} && m.compress == Blake3Compress
    requires done0 <= outBlocks && at + outBlocks * BLOCK_LEN <= out.Length
    requires Streams(m, o, counter * BLOCK_LEN, out, at, done0 * BLOCK_LEN)
    modifies out
    ensures done0 <= done <= outBlocks < done + d
    ensures Streams(m, o, counter * BLOCK_LEN, out, at, done * BLOCK_LEN)
    ensures forall i :: 0 <= i < out.Length && !(at <= i < at + outBlocks * BLOCK_LEN) ==> out[i] == old(out[i])
  {
    hide Streams, Blake3Compress, StoreWords;
    done := done0;
    while outBlocks - done >= d
      invariant done0 <= done <= outBlocks
      invariant Streams(m, o, counter * BLOCK_LEN, out, at, done * BLOCK_LEN)
      invariant forall i :: 0 <= i < out.Length && !(at <= i < at + outBlocks * BLOCK_LEN) ==> out[i] == old(out[i])
    {
      var blocks := XofLanes(d, o.inputCv, o.block, o.blockLen, counter + done, o.flags | ROOT);
      StoreBlocks(m, o, counter, out, at, done, blocks);
      done := done + d;
    }
  }

  /** blake3_xof_many_avx512: batches of 16, 8 and 4, then one by one; the contract of the plain loop. */
  method XofManyBatched(m: Mode, o: Output, counter: nat, out: array<Byte>, at: nat, outBlocks: nat)
    requires m.compress == Blake3Compress && at + outBlocks * BLOCK_LEN <= out.Length
    modifies out
    ensures Streams(m, o, counter * BLOCK_LEN, out, at, outBlocks * BLOCK_LEN)
    ensures forall i :: 0 <= i < out.Length && !(at <= i < at + outBlocks * BLOCK_LEN) ==> out[i] == old(out[i])
  {
    hide Blake3Compress, StoreWords, RootByte;
    var done := RunXof(16, m, o, counter, out, at, outBlocks, 0);
    done := RunXof(8, m, o, counter, out, at, outBlocks, done);
    done := RunXof(4, m, o, counter, out, at, outBlocks, done);
    while done < outBlocks
      invariant done <= outBlocks && Streams(m, o, counter * BLOCK_LEN, out, at, done * BLOCK_LEN)
      invariant forall i :: 0 <= i < out.Length && !(at <= i < at + outBlocks * BLOCK_LEN) ==> out[i] == old(out[i])
    {
      var block := StoreWords(m.compress(o.inputCv, o.block, o.blockLen, counter + done, o.flags | ROOT));
      StoreBlocks(m, o, counter, out, at, done, [block]);
      done := done + 1;
    }
  }
}
