/**
 The BLAKE3 hash as a recursive tree (sections 2.1 and 2.4 to 2.6 of the BLAKE3
 specification), for any compression function, key and mode flags.
 */
module Tree {
  import opened Bits
  import opened Compression

  /** What all nodes of one tree share. */
  datatype Mode = Mode(compress: Compress, key: Words8, flags: Byte)

  /** A node whose last compression is still open: it can become a chaining value or the root. */
  datatype Output = Output(inputCv: Words8, block: Block, blockLen: nat, counter: nat, flags: Byte)

  // ---------- Outputs ----------

  /** The chaining value words after one more block. */
  function NextCv(m: Mode, cv: Words8, block: Block, blockLen: nat, counter: nat, flags: Byte): Words8 {
    m.compress(cv, block, blockLen, counter, flags)[..8]
  }

  function ChainingValue(m: Mode, o: Output): Cv {
    StoreWords(NextCv(m, o.inputCv, o.block, o.blockLen, o.counter, o.flags))
  }

  /** Block i of the unbounded output stream of a root node. */
  function RootBlock(m: Mode, o: Output, i: nat): Block {
    StoreWords(m.compress(o.inputCv, o.block, o.blockLen, i, o.flags | ROOT))
  }

  /** Byte p of the output stream. */
  function RootByte(m: Mode, o: Output, p: nat): Byte {
    RootBlock(m, o, p / BLOCK_LEN)[p % BLOCK_LEN]
  }

  /** Bytes seek, ..., seek + n - 1 of the output stream. */
  function RootBytes(m: Mode, o: Output, seek: nat, n: nat): (bs: seq<Byte>)
    ensures |bs| == n
  {
    seq(n, i requires 0 <= i < n => RootByte(m, o, seek + i))
  }

  /** Adjacent reads of the output stream concatenate. */
  lemma RootBytesConcat(m: Mode, o: Output, seek: nat, a: nat, b: nat)
    ensures RootBytes(m, o, seek, a + b) == RootBytes(m, o, seek, a) + RootBytes(m, o, seek + a, b)
  {
    var all, left, right :=
      RootBytes(m, o, seek, a + b), RootBytes(m, o, seek, a), RootBytes(m, o, seek + a, b);
    forall i | 0 <= i < a + b
      ensures all[i] == (left + right)[i]
    {
      if i >= a {
        assert right[i - a] == RootByte(m, o, seek + a + (i - a));
      }
    }
  }

  // ---------- Chunks ----------

  function Pad(bs: seq<Byte>): Block
    requires |bs| <= BLOCK_LEN
  {
    bs + seq(BLOCK_LEN - |bs|, _ => 0 as Byte)
  }

  function StartFlag(blocks: nat): Byte {
    if blocks == 0 then CHUNK_START else 0
  }

  /** How many blocks of n bytes are followed by at least one byte. */
  function InnerBlocks(n: nat): nat {
    if n == 0 then 0 else (n - 1) / BLOCK_LEN
  }

  function BlockAt(bytes: seq<Byte>, i: nat): Block
    requires (i + 1) * BLOCK_LEN <= |bytes|
  {
    bytes[i * BLOCK_LEN..(i + 1) * BLOCK_LEN]
  }

  /** The chaining value after the first full blocks of a chunk. */
  function ChunkCv(m: Mode, bytes: seq<Byte>, blocks: nat, counter: nat): Words8
    requires blocks * BLOCK_LEN <= |bytes|
  {
    if blocks == 0 then m.key
    else NextCv(m, ChunkCv(m, bytes, blocks - 1, counter), BlockAt(bytes, blocks - 1),
                BLOCK_LEN, counter, m.flags | StartFlag(blocks - 1))
  }

  /** The chunk with its last block held back. */
  function ChunkOutput(m: Mode, bytes: seq<Byte>, counter: nat): Output
    requires |bytes| <= CHUNK_LEN
  {
    var blocks := InnerBlocks(|bytes|);
    Output(ChunkCv(m, bytes, blocks, counter), Pad(bytes[blocks * BLOCK_LEN..]),
           |bytes| - blocks * BLOCK_LEN, counter, m.flags | StartFlag(blocks) | CHUNK_END)
  }

  lemma {:induction false} ChunkCvPrefix(m: Mode, a: seq<Byte>, b: seq<Byte>, blocks: nat, counter: nat)
    requires a <= b && blocks * BLOCK_LEN <= |a|
    ensures ChunkCv(m, a, blocks, counter) == ChunkCv(m, b, blocks, counter)
  {
    if blocks > 0 {
      ChunkCvPrefix(m, a, b, blocks - 1, counter);
      assert BlockAt(a, blocks - 1) == BlockAt(b, blocks - 1);
    }
  }

  // ---------- Parents and the tree ----------

  function ParentOutput(m: Mode, left: Cv, right: Cv): Output {
    Output(m.key, left + right, BLOCK_LEN, 0, m.flags | PARENT)
  }

  function ParentCv(m: Mode, left: Cv, right: Cv): Cv {
    ChainingValue(m, ParentOutput(m, left, right))
  }

  /** The bytes of the left subtree: the largest power of two of chunks that leaves a byte. */
  function LeftLen(n: nat): nat
    requires n > CHUNK_LEN
  {
    CHUNK_LEN * TopBit((n - 1) / CHUNK_LEN)
  }

  /** What the specification says of the split, and that it says it of one number only. */
  lemma LeftLenSpec(n: nat)
    requires n > CHUNK_LEN
    ensures IsPow2(LeftLen(n) / CHUNK_LEN) && LeftLen(n) % CHUNK_LEN == 0
    ensures CHUNK_LEN <= LeftLen(n) < n <= 2 * LeftLen(n)
  {
    TopBitSpec((n - 1) / CHUNK_LEN);
  }

  lemma LeftLenUnique(n: nat, k: nat)
    requires n > CHUNK_LEN && IsPow2(k) && CHUNK_LEN * k < n <= 2 * (CHUNK_LEN * k)
    ensures LeftLen(n) == CHUNK_LEN * k
  {
    TopBitUnique((n - 1) / CHUNK_LEN, k);
  }

  /** The node over bytes whose first chunk has the given number. */
  function TreeOutput(m: Mode, bytes: seq<Byte>, counter: nat): Output
    decreases |bytes|
  {
    if |bytes| <= CHUNK_LEN then ChunkOutput(m, bytes, counter)
    else
      LeftLenSpec(|bytes|);
      var l := LeftLen(|bytes|);
      ParentOutput(m, ChainingValue(m, TreeOutput(m, bytes[..l], counter)),
                   ChainingValue(m, TreeOutput(m, bytes[l..], counter + l / CHUNK_LEN)))
  }

  function TreeCv(m: Mode, bytes: seq<Byte>, counter: nat): Cv {
    ChainingValue(m, TreeOutput(m, bytes, counter))
  }

  /** The hash: bytes seek, ..., seek + n - 1 of the root output of the message. */
  function Hash(m: Mode, msg: seq<Byte>, seek: nat, n: nat): seq<Byte> {
    RootBytes(m, TreeOutput(m, msg, 0), seek, n)
  }

  /** Splitting a node over k to 2k chunks, k a power of two. */
  lemma TreeSplit(m: Mode, bytes: seq<Byte>, counter: nat, k: nat)
    requires IsPow2(k) && CHUNK_LEN * k < |bytes| <= 2 * (CHUNK_LEN * k)
    ensures TreeOutput(m, bytes, counter)
         == ParentOutput(m, TreeCv(m, bytes[..CHUNK_LEN * k], counter),
                         TreeCv(m, bytes[CHUNK_LEN * k..], counter + k))
  {
    hide ChunkOutput, ParentOutput, ChainingValue, IsPow2;
    LeftLenUnique(|bytes|, k);
    assert LeftLen(|bytes|) / CHUNK_LEN == k;
  }

  // The nodes of the smallest messages, spelled out.

  lemma OneBlockNode(m: Mode, msg: seq<Byte>, counter: nat)
    requires |msg| <= 64
    ensures TreeOutput(m, msg, counter) == Output(m.key, Pad(msg), |msg|, counter, m.flags | 1 | 2)
  {
    assert msg[0..] == msg;
  }

  lemma TwoBlockNode(m: Mode, msg: seq<Byte>, counter: nat)
    requires 64 < |msg| <= 128
    ensures TreeOutput(m, msg, counter)
         == Output(m.compress(m.key, msg[..64], 64, counter, m.flags | 1)[..8], Pad(msg[64..]), |msg| - 64, counter,
                   m.flags | 0 | 2)
  {
    assert InnerBlocks(|msg|) == 1;
    assert BlockAt(msg, 0) == msg[..64];
    assert ChunkCv(m, msg, 0, counter) == m.key;
  }

  lemma TwoChunkNode(m: Mode, msg: seq<Byte>, counter: nat)
    requires 1024 < |msg| <= 2048
    ensures TreeOutput(m, msg, counter)
         == Output(m.key, TreeCv(m, msg[..1024], counter) + TreeCv(m, msg[1024..], counter + 1), 64, 0, m.flags | 4)
  {
    hide ChainingValue, TreeOutput;
    TreeSplit(m, msg, counter, 1);
  }
}
