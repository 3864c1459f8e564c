/**
 The chunk state of blake3.c: a running chaining value and a block buffer that
 always holds back the last block.
 */
module Chunk {
  import opened Compression
  import opened Tree

  /** blake3_compress_in_place: replaces the chaining value by that of one more block. */
  method CompressInPlace(m: Mode, cv: array<Word>, block: Block, blockLen: nat, counter: nat, flags: Byte)
    requires cv.Length == 8
    modifies cv
    ensures cv[..] == NextCv(m, old(cv[..]), block, blockLen, counter, flags)
  {
    var words := NextCv(m, cv[..], block, blockLen, counter, flags);
    forall i | 0 <= i < 8 {
      cv[i] := words[i];
    }
  }

  /** Taking bytes from the front of the rest moves the end of what was taken. */
  lemma TakeMore(total: seq<Byte>, rest: seq<Byte>, from: nat, upTo: nat, take: nat)
    requires from <= upTo <= |total| && rest == total[upTo..] && take <= |rest|
    ensures rest[take..] == total[upTo + take..]
    ensures total[from..upTo + take] == total[from..upTo] + rest[..take]
  {}

  /** Writing bytes behind those of a padded block pads the longer sequence. */
  lemma PadMore(bs: seq<Byte>, more: seq<Byte>, was: seq<Byte>, now: seq<Byte>)
    requires |bs| + |more| <= BLOCK_LEN && was == Pad(bs) && |now| == BLOCK_LEN
    requires forall i :: 0 <= i < BLOCK_LEN ==>
      now[i] == if |bs| <= i < |bs| + |more| then more[i - |bs|] else was[i]
    ensures now == Pad(bs + more)
  {}

  class ChunkState {
    const mode: Mode
    const cv: array<Word>
    const buf: array<Byte>
    var chunkCounter: nat
    var bufLen: nat
    var blocksCompressed: nat
    /** All bytes of the chunk so far. */
    ghost var data: seq<Byte>

    /** The fields depend on the bytes so far only, not on how they were cut. */
    ghost predicate Valid()
      reads this, cv, buf
    {
      && cv.Length == 8 && buf.Length == BLOCK_LEN
      && |data| <= CHUNK_LEN
      && blocksCompressed == InnerBlocks(|data|)
      && bufLen == |data| - blocksCompressed * BLOCK_LEN
      && buf[..] == Pad(data[blocksCompressed * BLOCK_LEN..])
      && cv[..] == ChunkCv(mode, data, blocksCompressed, chunkCounter)
    }

    /** chunk_state_init */
    constructor (mode: Mode)
      ensures Valid() && data == [] && chunkCounter == 0 && this.mode == mode
      ensures fresh(cv) && fresh(buf)
    {
      this.mode := mode;
      cv := new Word[8](i requires 0 <= i < 8 => mode.key[i]);
      buf := new Byte[BLOCK_LEN](_ => 0 as Byte);
      chunkCounter, bufLen, blocksCompressed := 0, 0, 0;
      data := [];
    }

    /** chunk_state_reset */
    method Reset(counter: nat)
      requires Valid()
      modifies this, cv, buf
      ensures Valid() && data == [] && chunkCounter == counter
    {
      forall i | 0 <= i < 8 {
        cv[i] := mode.key[i];
      }
      forall i | 0 <= i < BLOCK_LEN {
        buf[i] := 0;
      }
      chunkCounter, bufLen, blocksCompressed := counter, 0, 0;
      data := [];
    }

    /** chunk_state_len */
    function Len(): nat
      reads this
    {
      BLOCK_LEN * blocksCompressed + bufLen
    }

    /** The fields while an update has still to consume the rest of the bytes of total. */
    ghost predicate Progress(total: seq<Byte>, rest: seq<Byte>)
      reads this, cv, buf
    {
      && cv.Length == 8 && buf.Length == BLOCK_LEN && bufLen <= BLOCK_LEN
      && blocksCompressed * BLOCK_LEN + bufLen + |rest| == |total|
      && rest == total[|total| - |rest|..]
      && buf[..] == Pad(total[blocksCompressed * BLOCK_LEN..|total| - |rest|])
      && cv[..] == ChunkCv(mode, total, blocksCompressed, chunkCounter)
    }

    /** chunk_state_fill_buf: copies as much of the input as fits behind the buffered bytes. */
    method FillBuf(input: seq<Byte>, ghost total: seq<Byte>) returns (take: nat)
      requires Progress(total, input)
      modifies this`bufLen, buf
      ensures take <= |input| && bufLen == old(bufLen) + take
      ensures take == |input| || bufLen == BLOCK_LEN
      ensures Progress(total, input[take..])
    {
      hide ChunkCv;
      take := BLOCK_LEN - bufLen;
      if take > |input| {
        take := |input|;
      }
      ghost var from, upTo, was := blocksCompressed * BLOCK_LEN, |total| - |input|, buf[..];
      forall i | 0 <= i < take {
        buf[bufLen + i] := input[i];
      }
      TakeMore(total, input, from, upTo, take);
      PadMore(total[from..upTo], input[..take], was, buf[..]);
      bufLen := bufLen + take;
    }

    /** Compresses the full buffer and clears it. */
    method CompressBuffer(ghost total: seq<Byte>, ghost rest: seq<Byte>)
      requires Progress(total, rest) && bufLen == BLOCK_LEN
      modifies this`bufLen, this`blocksCompressed, cv, buf
      ensures Progress(total, rest) && bufLen == 0 && blocksCompressed == old(blocksCompressed) + 1
    {
      hide NextCv, StartFlag;
      assert buf[..] == BlockAt(total, blocksCompressed);
      CompressInPlace(mode, cv, buf[..], BLOCK_LEN, chunkCounter, mode.flags | StartFlag(blocksCompressed));
      blocksCompressed := blocksCompressed + 1;
      bufLen := 0;
      forall i | 0 <= i < BLOCK_LEN {
        buf[i] := 0;
      }
    }

    /** Compresses the next block straight from the input. */
    method CompressBlock(input: seq<Byte>, ghost total: seq<Byte>)
      requires Progress(total, input) && bufLen == 0 && |input| >= BLOCK_LEN
      modifies this`blocksCompressed, cv
      ensures Progress(total, input[BLOCK_LEN..]) && blocksCompressed == old(blocksCompressed) + 1
    {
      hide NextCv, StartFlag;
      assert input[..BLOCK_LEN] == BlockAt(total, blocksCompressed);
      CompressInPlace(mode, cv, input[..BLOCK_LEN], BLOCK_LEN, chunkCounter,
                      mode.flags | StartFlag(blocksCompressed));
      blocksCompressed := blocksCompressed + 1;
    }

    /** chunk_state_update */
    method Update(input0: seq<Byte>)
      requires Valid() && |data| + |input0| <= CHUNK_LEN
      modifies this, cv, buf
      ensures Valid() && data == old(data) + input0 && chunkCounter == old(chunkCounter)
    {
      hide ChunkCv, Pad, InnerBlocks;
      var input := input0;
      ghost var total := data + input0;
      Begins(input0);
      if bufLen > 0 {
        var take := FillBuf(input, total);
        input := input[take..];
        if |input| > 0 {
          CompressBuffer(total, input);
        }
      }
      while |input| > BLOCK_LEN
        invariant Progress(total, input) && chunkCounter == old(chunkCounter)
        invariant |input| > 0 ==> bufLen == 0
        invariant bufLen == 0 ==> |input| > 0 || total == []
      {
        CompressBlock(input, total);
        input := input[BLOCK_LEN..];
      }
      var take := FillBuf(input, total);
      Ends(total, input[take..]);
      data := total;
    }

    /** Before an update everything is still to consume. */
    lemma Begins(input: seq<Byte>)
      requires Valid() && |data| + |input| <= CHUNK_LEN
      ensures Progress(data + input, input)
      ensures bufLen == 0 ==> data == []
    {
      hide ChunkCv, Pad;
      var total := data + input;
      ChunkCvPrefix(mode, data, total, blocksCompressed, chunkCounter);
      assert total[blocksCompressed * BLOCK_LEN..|total| - |input|] == data[blocksCompressed * BLOCK_LEN..];
      assert total[|data|..] == input;
    }

    /** With everything consumed, the fields are those of all bytes with the last block held back. */
    lemma Ends(total: seq<Byte>, rest: seq<Byte>)
      requires Progress(total, rest) && rest == [] && (bufLen == 0 ==> total == [])
      ensures blocksCompressed == InnerBlocks(|total|) && bufLen == |total| - blocksCompressed * BLOCK_LEN
      ensures buf[..] == Pad(total[blocksCompressed * BLOCK_LEN..])
    {
      hide ChunkCv, Pad;
      assert total[blocksCompressed * BLOCK_LEN..|total| - 0] == total[blocksCompressed * BLOCK_LEN..];
    }

    /** chunk_state_output */
    method GetOutput() returns (o: Output)
      requires Valid()
      ensures o == ChunkOutput(mode, data, chunkCounter)
    {
      o := Output(cv[..], buf[..], bufLen, chunkCounter,
                  mode.flags | StartFlag(blocksCompressed) | CHUNK_END);
    }
  }
}
