/**
 Compressing a whole subtree at once: hash_many, the chunk and parent layers, the
 recursive compress_subtree_wide and the condensing loop above it.

 A byte buffer of chaining values is an array with one cell per 32-byte slot.
 */
module Subtree {
  import opened Bits
  import opened Compression
  import opened Tree
  import opened Chunk

  /** The detected and the largest SIMD degree. */
  datatype Platform = Platform(degree: nat, maxDegree: nat) {
    predicate Ok() {
      IsPow2(degree) && IsPow2(maxDegree) && degree <= maxDegree
    }

    /** MAX_SIMD_DEGREE_OR_2 */
    function Slots(): nat {
      if maxDegree > 2 then maxDegree else 2
    }

    /** The most chaining values that compress_subtree_wide returns. */
    function Width(): nat {
      if degree == 1 then 2 else degree
    }
  }

  // ---------- hash_one and hash_many ----------

  /** What all inputs of one hash_many call share. */
  datatype Batch = Batch(blocks: nat, flags: Byte, flagsStart: Byte, flagsEnd: Byte)

  function Or8(a: Byte, b: Byte): Byte { a | b }

  function BlockFlags(b: Batch, i: nat): Byte {
    var base := if i == 0 then Or8(b.flags, b.flagsStart) else b.flags;
    if i + 1 == b.blocks then Or8(base, b.flagsEnd) else base
  }

  /** The chaining value after the first i blocks of one input. */
  function HashBlocks(m: Mode, b: Batch, input: seq<Byte>, i: nat, counter: nat): Words8
    requires i * BLOCK_LEN <= |input|
  {
    if i == 0 then m.key
    else NextCv(m, HashBlocks(m, b, input, i - 1, counter), BlockAt(input, i - 1), BLOCK_LEN, counter,
                BlockFlags(b, i - 1))
  }

  function HashOneCv(m: Mode, b: Batch, input: seq<Byte>, counter: nat): Cv
    requires b.blocks * BLOCK_LEN <= |input|
  {
    StoreWords(HashBlocks(m, b, input, b.blocks, counter))
  }

  /** hash_one_portable */
  method HashOne(m: Mode, b: Batch, input0: seq<Byte>, counter: nat) returns (out: Cv)
    requires b.blocks * BLOCK_LEN <= |input0|
    ensures out == HashOneCv(m, b, input0, counter)
  {
    hide NextCv, BlockAt, HashBlocks, Or8;
    var cv := new Word[8](i requires 0 <= i < 8 => m.key[i]);
    HashBlocksNone(m, b, input0, counter);
    var input, blocks := input0, b.blocks;
    var blockFlags := Or8(b.flags, b.flagsStart);
    ghost var i: nat := 0;
    while blocks > 0
      invariant i <= b.blocks && i + blocks == b.blocks
      invariant input == input0[i * BLOCK_LEN..]
      invariant cv[..] == HashBlocks(m, b, input0, i, counter)
      invariant blockFlags == if i == 0 then Or8(b.flags, b.flagsStart) else b.flags
    {
      if blocks == 1 {
        blockFlags := Or8(blockFlags, b.flagsEnd);
      }
      HashBlocksStep(m, b, input0, i, counter);
      BlockAtRest(input0, i);
      CompressInPlace(m, cv, input[..BLOCK_LEN], BLOCK_LEN, counter, blockFlags);
      input := input[BLOCK_LEN..];
      blocks := blocks - 1;
      blockFlags := b.flags;
      i := i + 1;
    }
    out := StoreWords(cv[..]);
  }

  lemma HashBlocksNone(m: Mode, b: Batch, input: seq<Byte>, counter: nat)
    ensures HashBlocks(m, b, input, 0, counter) == m.key
  {}

  lemma HashBlocksStep(m: Mode, b: Batch, input: seq<Byte>, i: nat, counter: nat)
    requires (i + 1) * BLOCK_LEN <= |input|
    ensures HashBlocks(m, b, input, i + 1, counter)
         == NextCv(m, HashBlocks(m, b, input, i, counter), BlockAt(input, i), BLOCK_LEN, counter, BlockFlags(b, i))
  {
    hide NextCv, BlockAt;
  }

  lemma BlockAtRest(input: seq<Byte>, i: nat)
    requires (i + 1) * BLOCK_LEN <= |input|
    ensures input[i * BLOCK_LEN..][..BLOCK_LEN] == BlockAt(input, i)
    ensures input[i * BLOCK_LEN..][BLOCK_LEN..] == input[(i + 1) * BLOCK_LEN..]
  {}

  /** Slots at, at + 1, ... hold exactly the given chaining values. */
  ghost predicate Holds(out: array<Cv>, at: nat, cvs: seq<Cv>)
    reads out
  {
    at + |cvs| <= out.Length && forall i :: 0 <= i < |cvs| ==> out[at + i] == cvs[i]
  }

  /** The chaining values of a batch of inputs, counted up or all with the same counter. */
  function HashManyCvs(m: Mode, b: Batch, inputs: seq<seq<Byte>>, counter: nat, increment: bool): (cvs: seq<Cv>)
    requires forall i :: 0 <= i < |inputs| ==> b.blocks * BLOCK_LEN <= |inputs[i]|
    ensures |cvs| == |inputs|
  {
    seq(|inputs|, i requires 0 <= i < |inputs| =>
      HashOneCv(m, b, inputs[i], if increment then counter + i else counter))
  }

  /** blake3_hash_many_portable */
  method HashMany(m: Mode, b: Batch, inputs: seq<seq<Byte>>, counter0: nat, increment: bool,
                  out: array<Cv>, at: nat)
    requires forall i :: 0 <= i < |inputs| ==> b.blocks * BLOCK_LEN <= |inputs[i]|
    requires at + |inputs| <= out.Length
    modifies out
    ensures Holds(out, at, HashManyCvs(m, b, inputs, counter0, increment))
    ensures forall i :: 0 <= i < out.Length && !(at <= i < at + |inputs|) ==> out[i] == old(out[i])
  {
    hide HashOneCv;
    var counter := counter0;
    for i := 0 to |inputs|
      invariant counter == if increment then counter0 + i else counter0
      invariant forall j :: 0 <= j < i ==> out[at + j] == HashManyCvs(m, b, inputs, counter0, increment)[j]
      invariant forall j :: 0 <= j < out.Length && !(at <= j < at + i) ==> out[j] == old(out[j])
    {
      out[at + i] := HashOne(m, b, inputs[i], counter);
      if increment {
        counter := counter + 1;
      }
    }
  }

  // ---------- Chunks in parallel ----------

  function ChunkCount(n: nat): nat {
    (n + CHUNK_LEN - 1) / CHUNK_LEN
  }

  function ChunkAt(input: seq<Byte>, i: nat): (c: seq<Byte>)
    requires i * CHUNK_LEN < |input|
    ensures 0 < |c| <= CHUNK_LEN
  {
    if (i + 1) * CHUNK_LEN <= |input| then input[i * CHUNK_LEN..(i + 1) * CHUNK_LEN] else input[i * CHUNK_LEN..]
  }

  /** The chaining values of all chunks of an input. */
  function ChunkCvs(m: Mode, input: seq<Byte>, counter: nat): (cvs: seq<Cv>)
    ensures |cvs| == ChunkCount(|input|)
  {
    seq(ChunkCount(|input|), i requires 0 <= i < ChunkCount(|input|) => TreeCv(m, ChunkAt(input, i), counter + i))
  }

  function ChunkBatch(m: Mode): Batch {
    Batch(CHUNK_LEN / BLOCK_LEN, m.flags, CHUNK_START, CHUNK_END)
  }

  lemma {:induction false} HashBlocksIsChunkCv(m: Mode, chunk: seq<Byte>, i: nat, counter: nat)
    requires i < CHUNK_LEN / BLOCK_LEN && |chunk| == CHUNK_LEN
    ensures HashBlocks(m, ChunkBatch(m), chunk, i, counter) == ChunkCv(m, chunk, i, counter)
  {
    hide NextCv;
    if i > 0 {
      HashBlocksIsChunkCv(m, chunk, i - 1, counter);
      OrZeroByte(m.flags);
    }
  }

  lemma OrZeroByte(f: Byte)
    ensures f | 0 == f
  {}

  /** hash_one on a full chunk agrees with the chunk state, which holds its last block back. */
  lemma HashOneIsChunk(m: Mode, chunk: seq<Byte>, counter: nat)
    requires |chunk| == CHUNK_LEN
    ensures HashOneCv(m, ChunkBatch(m), chunk, counter) == TreeCv(m, chunk, counter)
  {
    hide NextCv;
    var last := CHUNK_LEN / BLOCK_LEN - 1;
    HashBlocksIsChunkCv(m, chunk, last, counter);
    OrZeroByte(m.flags);
    assert InnerBlocks(|chunk|) == last;
    assert Pad(chunk[last * BLOCK_LEN..]) == BlockAt(chunk, last);
  }

  /** The batch over the full chunks of an input yields all its chaining values but a partial last one. */
  lemma FullChunks(m: Mode, input: seq<Byte>, chunks: seq<seq<Byte>>, counter: nat)
    requires |chunks| * CHUNK_LEN <= |input| < (|chunks| + 1) * CHUNK_LEN
    requires forall i :: 0 <= i < |chunks| ==> |chunks[i]| == CHUNK_LEN && chunks[i] == FullChunk(input, i)
    ensures |chunks| <= ChunkCount(|input|) <= |chunks| + 1
    ensures HashManyCvs(m, ChunkBatch(m), chunks, counter, true) == ChunkCvs(m, input, counter)[..|chunks|]
    ensures |chunks| < ChunkCount(|input|) <==> |chunks| * CHUNK_LEN < |input|
    ensures |chunks| < ChunkCount(|input|) ==>
      ChunkCvs(m, input, counter)[|chunks|] == TreeCv(m, input[|chunks| * CHUNK_LEN..], counter + |chunks|)
  {
    hide TreeCv, HashOneCv;
    forall i | 0 <= i < |chunks|
      ensures HashManyCvs(m, ChunkBatch(m), chunks, counter, true)[i] == ChunkCvs(m, input, counter)[i]
    {
      HashOneIsChunk(m, chunks[i], counter + i);
    }
  }

  function FullChunk(input: seq<Byte>, i: nat): (c: seq<Byte>)
    requires (i + 1) * CHUNK_LEN <= |input|
    ensures |c| == CHUNK_LEN
  {
    input[i * CHUNK_LEN..(i + 1) * CHUNK_LEN]
  }

  /** compress_chunks_parallel */
  method CompressChunksParallel(m: Mode, p: Platform, input: seq<Byte>, counter: nat, out: array<Cv>, at: nat)
    returns (n: nat)
    requires 0 < |input| <= p.maxDegree * CHUNK_LEN && at + ChunkCount(|input|) <= out.Length
    modifies out
    ensures n == ChunkCount(|input|) && Holds(out, at, ChunkCvs(m, input, counter))
    ensures forall i :: 0 <= i < out.Length && !(at <= i < at + n) ==> out[i] == old(out[i])
  {
    hide ChunkCvs, HashManyCvs, TreeCv;
    // chunks_array has room for maxDegree pointers
    var chunks: seq<seq<Byte>> := [];
    var pos := 0;
    while |input| - pos >= CHUNK_LEN
      invariant pos == |chunks| * CHUNK_LEN <= |input| && |chunks| <= p.maxDegree
      invariant forall i :: 0 <= i < |chunks| ==> chunks[i] == FullChunk(input, i)
    {
      chunks := chunks + [input[pos..pos + CHUNK_LEN]];
      pos := pos + CHUNK_LEN;
    }
    FullChunks(m, input, chunks, counter);
    HashMany(m, ChunkBatch(m), chunks, counter, true, out, at);
    n := |chunks|;
    if |input| > pos {
      var cv := HashLastChunk(m, input[pos..], counter + |chunks|);
      out[at + n] := cv;
      n := n + 1;
    }
  }

  /** The chunk state path for one chunk that is hashed by itself. */
  method HashLastChunk(m: Mode, input: seq<Byte>, counter: nat) returns (cv: Cv)
    requires |input| <= CHUNK_LEN
    ensures cv == TreeCv(m, input, counter)
  {
    var state := new ChunkState(m);
    state.chunkCounter := counter;
    state.Update(input);
    var output := state.GetOutput();
    assert state.data == input;
    cv := ChainingValue(m, output);
  }

  // ---------- Parents in parallel ----------

  /** One layer of parents; an odd last chaining value is carried over. */
  function PairUp(m: Mode, cvs: seq<Cv>): (r: seq<Cv>)
    ensures |r| == (|cvs| + 1) / 2
  {
    seq((|cvs| + 1) / 2, i requires 0 <= i < (|cvs| + 1) / 2 =>
      if 2 * i + 1 < |cvs| then ParentCv(m, cvs[2 * i], cvs[2 * i + 1]) else cvs[2 * i])
  }

  /** The block of a parent node: two neighbouring slots. */
  function Join(left: Cv, right: Cv): Block {
    left + right
  }

  function ParentBatch(m: Mode): Batch {
    Batch(1, m.flags | PARENT, 0, 0)
  }

  lemma HashOneIsParent(m: Mode, left: Cv, right: Cv)
    ensures HashOneCv(m, ParentBatch(m), left + right, 0) == ParentCv(m, left, right)
  {
    hide NextCv;
    var b, block := ParentBatch(m), left + right;
    OrZeroByte(m.flags | PARENT);
    assert BlockFlags(b, 0) == m.flags | PARENT;
    assert BlockAt(block, 0) == block;
    assert HashBlocks(m, b, block, 0, 0) == m.key;
    assert HashBlocks(m, b, block, 1, 0) == NextCv(m, m.key, block, BLOCK_LEN, 0, m.flags | PARENT);
  }

  /** The batch over the full pairs of a row yields the layer above but an odd last one. */
  lemma FullPairs(m: Mode, cvs: seq<Cv>, parents: seq<Block>)
    requires |parents| == |cvs| / 2
    requires forall i :: 0 <= i < |parents| ==> parents[i] == Join(cvs[2 * i], cvs[2 * i + 1])
    ensures HashManyCvs(m, ParentBatch(m), parents, 0, false) == PairUp(m, cvs)[..|parents|]
    ensures |cvs| % 2 == 1 ==> PairUp(m, cvs)[|parents|] == cvs[|cvs| - 1]
  {
    hide ParentCv, HashOneCv;
    forall i | 0 <= i < |parents|
      ensures HashManyCvs(m, ParentBatch(m), parents, 0, false)[i] == PairUp(m, cvs)[i]
    {
      HashOneIsParent(m, cvs[2 * i], cvs[2 * i + 1]);
    }
  }

  /** compress_parents_parallel */
  method CompressParentsParallel(m: Mode, p: Platform, children: array<Cv>, num: nat, out: array<Cv>, at: nat)
    returns (n: nat)
    requires 2 <= num <= 2 * p.Slots() && num <= children.Length && at + (num + 1) / 2 <= out.Length && children != out
    modifies out
    ensures n == (num + 1) / 2 && Holds(out, at, PairUp(m, children[..num]))
    ensures forall i :: 0 <= i < out.Length && !(at <= i < at + n) ==> out[i] == old(out[i])
  {
    hide PairUp, HashManyCvs, Join;
    ghost var cvs := children[..num];
    // parents_array has room for p.Slots() pointers
    var parents: seq<Block> := [];
    while num - 2 * |parents| >= 2
      invariant 2 * |parents| <= num && |parents| <= p.Slots()
      invariant forall i :: 0 <= i < |parents| ==> parents[i] == Join(cvs[2 * i], cvs[2 * i + 1])
    {
      parents := parents + [Join(children[2 * |parents|], children[2 * |parents| + 1])];
    }
    FullPairs(m, cvs, parents);
    HashMany(m, ParentBatch(m), parents, 0, false, out, at);
    n := |parents|;
    if num > 2 * |parents| {
      out[at + n] := children[2 * |parents|];
      n := n + 1;
    }
  }

  // ---------- A row of chaining values as a tree ----------

  /** The tree over a row of chaining values, split at the largest power of two below its length. */
  function Fold(m: Mode, cvs: seq<Cv>): Cv
    requires |cvs| > 0
    decreases |cvs|
  {
    if |cvs| == 1 then cvs[0]
    else
      var (l, r) := FoldPair(m, cvs);
      ParentCv(m, l, r)
  }

  /** The two children at the top of that tree. */
  function FoldPair(m: Mode, cvs: seq<Cv>): (Cv, Cv)
    requires |cvs| > 1
    decreases |cvs|, 0
  {
    TopBitSpec(|cvs| - 1);
    var p := TopBit(|cvs| - 1);
    (Fold(m, cvs[..p]), Fold(m, cvs[p..]))
  }

  lemma FoldPairAt(m: Mode, left: seq<Cv>, right: seq<Cv>)
    requires IsPow2(|left|) && 0 < |right| <= |left|
    ensures FoldPair(m, left + right) == (Fold(m, left), Fold(m, right))
    ensures Fold(m, left + right) == ParentCv(m, Fold(m, left), Fold(m, right))
  {
    hide ParentCv;
    TopBitUnique(|left| + |right| - 1, |left|);
    assert (left + right)[..|left|] == left && (left + right)[|left|..] == right;
  }

  lemma PairUpConcat(m: Mode, left: seq<Cv>, right: seq<Cv>)
    requires |left| % 2 == 0
    ensures PairUp(m, left + right) == PairUp(m, left) + PairUp(m, right)
  {
    hide ParentCv;
    var h := |left| / 2;
    forall i | 0 <= i < (|left| + |right| + 1) / 2
      ensures PairUp(m, left + right)[i] == (PairUp(m, left) + PairUp(m, right))[i]
    {
      if i >= h {
        assert (left + right)[2 * i] == right[2 * (i - h)];
      }
    }
  }

  /** A layer of parents does not change the tree; with three or more, not even its two top children. */
  lemma {:induction false} PairUpFold(m: Mode, cvs: seq<Cv>)
    requires |cvs| > 1
    ensures Fold(m, PairUp(m, cvs)) == Fold(m, cvs)
    ensures |cvs| > 2 ==> FoldPair(m, PairUp(m, cvs)) == FoldPair(m, cvs)
    decreases |cvs|
  {
    hide ParentCv, PairUp, FoldPair, TopBit;
    if |cvs| == 2 {
      PairUpTwo(m, cvs);
    } else {
      var left, right := SplitRow(cvs);
      PairUpConcat(m, left, right);
      PairUpFold(m, left);
      if |right| > 1 {
        PairUpFold(m, right);
      } else {
        PairUpOne(m, right);
      }
      FoldPairAt(m, left, right);
      FoldPairAt(m, PairUp(m, left), PairUp(m, right));
    }
  }

  /** The two parts of a row of three or more: the left one has a power of two, at least two. */
  lemma SplitRow(cvs: seq<Cv>) returns (left: seq<Cv>, right: seq<Cv>)
    requires |cvs| > 2
    ensures cvs == left + right && IsPow2(|left|) && |left| % 2 == 0 && IsPow2(|left| / 2)
    ensures 1 < |left| < |cvs| && 0 < |right| <= |left|
  {
    TopBitSpec(|cvs| - 1);
    var p := TopBit(|cvs| - 1);
    left, right := cvs[..p], cvs[p..];
  }

  lemma PairUpTwo(m: Mode, cvs: seq<Cv>)
    requires |cvs| == 2
    ensures PairUp(m, cvs) == [ParentCv(m, cvs[0], cvs[1])]
    ensures Fold(m, cvs) == ParentCv(m, cvs[0], cvs[1])
  {
    hide ParentCv;
    FoldPairOfTwo(m, cvs);
  }

  lemma PairUpOne(m: Mode, cvs: seq<Cv>)
    requires |cvs| == 1
    ensures PairUp(m, cvs) == cvs
  {}

  /** The chunks of an input, folded, are its node in the hash tree. */
  lemma {:induction false} ChunkFold(m: Mode, input: seq<Byte>, counter: nat)
    requires |input| > 0
    ensures Fold(m, ChunkCvs(m, input, counter)) == TreeCv(m, input, counter)
    ensures |input| > CHUNK_LEN ==> FoldPair(m, ChunkCvs(m, input, counter)) == Children(m, input, counter)
    decreases |input|
  {
    hide TreeCv, ChunkCvs, LeftLen, IsPow2, Fold, FoldPair;
    if |input| <= CHUNK_LEN {
      OneChunkFolds(m, input, counter);
    } else {
      LeftLenSpec(|input|);
      var l := LeftLen(|input|);
      ChunkFold(m, input[..l], counter);
      ChunkFold(m, input[l..], counter + l / CHUNK_LEN);
      ChunkCvsConcat(m, input, l, counter);
      ChunkCvsLength(m, input[..l], counter);
      ChunkCvsLength(m, input[l..], counter + l / CHUNK_LEN);
      FoldPairAt(m, ChunkCvs(m, input[..l], counter), ChunkCvs(m, input[l..], counter + l / CHUNK_LEN));
      TreeOfChildren(m, input, counter);
    }
  }

  lemma OneChunkFolds(m: Mode, input: seq<Byte>, counter: nat)
    requires 0 < |input| <= CHUNK_LEN
    ensures ChunkCvs(m, input, counter) != [] && Fold(m, ChunkCvs(m, input, counter)) == TreeCv(m, input, counter)
  {
    hide TreeCv;
    assert ChunkAt(input, 0) == input;
  }

  lemma ChunkCvsLength(m: Mode, input: seq<Byte>, counter: nat)
    requires |input| > 0
    ensures 0 < |ChunkCvs(m, input, counter)| == ChunkCount(|input|)
  {
    hide TreeCv;
  }

  /** A node over more than one chunk is the parent of its children. */
  lemma TreeOfChildren(m: Mode, input: seq<Byte>, counter: nat)
    requires |input| > CHUNK_LEN
    ensures TreeCv(m, input, counter) == ParentCv(m, Children(m, input, counter).0, Children(m, input, counter).1)
  {
    hide ParentOutput, ChainingValue, LeftLen;
  }

  lemma ChunkCvsConcat(m: Mode, input: seq<Byte>, l: nat, counter: nat)
    requires l % CHUNK_LEN == 0 && l <= |input|
    ensures ChunkCvs(m, input, counter)
         == ChunkCvs(m, input[..l], counter) + ChunkCvs(m, input[l..], counter + l / CHUNK_LEN)
  {
    hide TreeCv, ChunkAt;
    var k := l / CHUNK_LEN;
    assert ChunkCount(|input|) == k + ChunkCount(|input| - l);
    assert ChunkCount(l) == k;
    forall i | 0 <= i < ChunkCount(|input|)
      ensures ChunkCvs(m, input, counter)[i]
           == (ChunkCvs(m, input[..l], counter) + ChunkCvs(m, input[l..], counter + k))[i]
    {
      ChunkAtSplit(input, k, i);
    }
  }

  lemma ChunkAtSplit(input: seq<Byte>, k: nat, i: nat)
    requires i * CHUNK_LEN < |input| && k * CHUNK_LEN <= |input|
    ensures i < k ==> ChunkAt(input, i) == ChunkAt(input[..k * CHUNK_LEN], i)
    ensures i >= k ==>
      && (i - k) * CHUNK_LEN < |input| - k * CHUNK_LEN
      && ChunkAt(input, i) == ChunkAt(input[k * CHUNK_LEN..], i - k)
  {}

  /** The two child chaining values of a node over more than one chunk. */
  function Children(m: Mode, input: seq<Byte>, counter: nat): (Cv, Cv)
    requires |input| > CHUNK_LEN
  {
    LeftLenSpec(|input|);
    var l := LeftLen(|input|);
    (TreeCv(m, input[..l], counter), TreeCv(m, input[l..], counter + l / CHUNK_LEN))
  }

  // ---------- compress_subtree_wide ----------

  /** The row of chaining values that compress_subtree_wide returns. */
  function Wide(m: Mode, p: Platform, input: seq<Byte>, counter: nat): seq<Cv>
    requires p.Ok() && |input| > 0
    decreases |input|
  {
    if |input| <= p.degree * CHUNK_LEN then ChunkCvs(m, input, counter)
    else
      DegreeAtLeastOne(p);
      LeftLenSpec(|input|);
      var l := LeftLen(|input|);
      var left := Wide(m, p, input[..l], counter);
      var right := Wide(m, p, input[l..], counter + l / CHUNK_LEN);
      if |left| == 1 then left + right else PairUp(m, left + right)
  }

  lemma DegreeAtLeastOne(p: Platform)
    requires p.Ok()
    ensures p.degree * CHUNK_LEN >= CHUNK_LEN
  {}

  function Min(a: nat, b: nat): nat {
    if a < b then a else b
  }

  /** How long the row is: full width for a full subtree, never too long, and one only for one chunk. */
  lemma {:induction false} WideLength(m: Mode, p: Platform, input: seq<Byte>, counter: nat)
    requires p.Ok() && |input| > 0
    ensures 1 <= |Wide(m, p, input, counter)| <= p.Width()
    ensures |input| <= CHUNK_LEN <==> |Wide(m, p, input, counter)| == 1
    ensures forall k :: IsPow2(k) && |input| == CHUNK_LEN * k ==>
      |Wide(m, p, input, counter)| == Min(k, p.Width())
    decreases |input|
  {
    hide ChunkCvs, PairUp;
    if |input| > p.degree * CHUNK_LEN {
      DegreeAtLeastOne(p);
      var l, k := SplitWidth(p, input);
      WideLength(m, p, input[..l], counter);
      WideLength(m, p, input[l..], counter + l / CHUNK_LEN);
      forall j | IsPow2(j) && |input| == CHUNK_LEN * j
        ensures |Wide(m, p, input, counter)| == Min(j, p.Width())
      {
        Pow2Gap(k, j);
        assert j == 2 * k && |input[l..]| == CHUNK_LEN * k;
      }
    }
  }

  /** The left part of a recursive call has a power of two of chunks, and at least the degree. */
  lemma SplitWidth(p: Platform, input: seq<Byte>) returns (l: nat, k: nat)
    requires p.Ok() && |input| > p.degree * CHUNK_LEN >= CHUNK_LEN
    ensures l == LeftLen(|input|) == CHUNK_LEN * k && IsPow2(k) && p.degree <= k
    ensures l < |input| <= 2 * l
    ensures Min(k, p.Width()) == if k == 1 then 1 else p.Width()
  {
    LeftLenSpec(|input|);
    l := LeftLen(|input|);
    k := l / CHUNK_LEN;
    if k < p.degree {
      Pow2Gap(k, p.degree);
    }
  }

  /**
   The row folds to the node of the hash tree, and for more than one chunk its two
   top children are those of the node, split where the specification splits.
   */
  lemma {:induction false} WideFold(m: Mode, p: Platform, input: seq<Byte>, counter: nat)
    requires p.Ok() && |input| > 0
    ensures |Wide(m, p, input, counter)| > 0
    ensures Fold(m, Wide(m, p, input, counter)) == TreeCv(m, input, counter)
    ensures |input| > CHUNK_LEN ==>
      && |Wide(m, p, input, counter)| > 1
      && FoldPair(m, Wide(m, p, input, counter)) == Children(m, input, counter)
    decreases |input|
  {
    hide TreeCv, ParentCv, PairUp, ChunkCvs, LeftLen, Fold, FoldPair;
    WideLength(m, p, input, counter);
    if |input| <= p.degree * CHUNK_LEN {
      ChunkFold(m, input, counter);
    } else {
      DegreeAtLeastOne(p);
      var l, k := SplitWidth(p, input);
      var left := Wide(m, p, input[..l], counter);
      var right := Wide(m, p, input[l..], counter + l / CHUNK_LEN);
      WideLength(m, p, input[..l], counter);
      WideLength(m, p, input[l..], counter + l / CHUNK_LEN);
      WideFold(m, p, input[..l], counter);
      WideFold(m, p, input[l..], counter + l / CHUNK_LEN);
      FoldPairAt(m, left, right);
      if |left| > 1 {
        PairUpFold(m, left + right);
      }
      TreeOfChildren(m, input, counter);
    }
  }

  /** Both rows of a recursive call fit, and the left one fills the slots before the right one. */
  lemma WideSplit(m: Mode, p: Platform, input: seq<Byte>, counter: nat) returns (left: seq<Cv>, right: seq<Cv>)
    requires p.Ok() && |input| > p.degree * CHUNK_LEN >= CHUNK_LEN
    ensures 0 < LeftLen(|input|) < |input|
    ensures left == Wide(m, p, input[..LeftLen(|input|)], counter)
    ensures right == Wide(m, p, input[LeftLen(|input|)..], counter + LeftLen(|input|) / CHUNK_LEN)
    ensures |left| == if LeftLen(|input|) > CHUNK_LEN && p.degree == 1 then 2 else p.degree
    ensures |left| <= p.Slots() && 0 < |right| <= p.Width() <= p.Slots() && (|left| == 1 ==> |right| == 1)
    ensures Wide(m, p, input, counter) == if |left| == 1 then left + right else PairUp(m, left + right)
  {
    hide ChunkCvs, PairUp, LeftLen, IsPow2;
    var l, k := SplitWidth(p, input);
    left := Wide(m, p, input[..l], counter);
    right := Wide(m, p, input[l..], counter + l / CHUNK_LEN);
    WideLength(m, p, input[..l], counter);
    WideLength(m, p, input[l..], counter + l / CHUNK_LEN);
  }

  const EMPTY: Cv := seq(OUT_LEN, _ => 0 as Byte)

  /** blake3_compress_subtree_wide */
  method CompressSubtreeWide(m: Mode, p: Platform, input: seq<Byte>, counter: nat, out: array<Cv>, at: nat)
    returns (n: nat)
    requires p.Ok() && 0 < |input| < TWO_64 && at + p.Slots() <= out.Length
    modifies out
    ensures n == |Wide(m, p, input, counter)| && Holds(out, at, Wide(m, p, input, counter))
    ensures forall i :: 0 <= i < out.Length && !(at <= i < at + n) ==> out[i] == old(out[i])
    decreases |input|
  {
    hide ChunkCvs, PairUp, Wide, LeftLen, IsPow2, TreeCv, TopBit;
    DegreeAtLeastOne(p);
    WideLength(m, p, input, counter);
    if |input| <= p.degree * CHUNK_LEN {
      WideOfFew(m, p, input, counter);
      n := CompressChunksParallel(m, p, input, counter, out, at);
      return;
    }
    ghost var left, right := WideSplit(m, p, input, counter);
    var leftLen := ComputeLeftLen(|input|);
    var cvArray := new Cv[2 * p.Slots()](_ => EMPTY);
    var degree := p.degree;
    if leftLen > CHUNK_LEN && degree == 1 {
      degree := 2;
    }
    var leftN := CompressSubtreeWide(m, p, input[..leftLen], counter, cvArray, 0);
    var rightN := CompressSubtreeWide(m, p, input[leftLen..], counter + leftLen / CHUNK_LEN, cvArray, degree);
    assert leftN == degree;
    TwoRows(cvArray, left, right);
    n := CondenseRows(m, p, cvArray, leftN, leftN + rightN, out, at);
  }

  /** The end of compress_subtree_wide: two chunks stay as they are, so that a root is never merged here. */
  method CondenseRows(m: Mode, p: Platform, cvArray: array<Cv>, leftN: nat, num: nat, out: array<Cv>, at: nat)
    returns (n: nat)
    requires 2 <= num <= 2 * p.Slots() && num <= cvArray.Length && (leftN == 1 ==> num == 2)
    requires at + (if leftN == 1 then 2 else (num + 1) / 2) <= out.Length && cvArray != out
    modifies out
    ensures n == if leftN == 1 then 2 else (num + 1) / 2
    ensures Holds(out, at, if leftN == 1 then cvArray[..num] else PairUp(m, cvArray[..num]))
    ensures forall i :: 0 <= i < out.Length && !(at <= i < at + n) ==> out[i] == old(out[i])
  {
    hide PairUp;
    if leftN == 1 {
      out[at] := cvArray[0];
      out[at + 1] := cvArray[1];
      return 2;
    }
    n := CompressParentsParallel(m, p, cvArray, num, out, at);
  }

  /** Two rows, one behind the other. */
  lemma TwoRows(a: array<Cv>, left: seq<Cv>, right: seq<Cv>)
    requires Holds(a, 0, left) && Holds(a, |left|, right)
    ensures a[..|left| + |right|] == left + right
  {}

  lemma WideOfFew(m: Mode, p: Platform, input: seq<Byte>, counter: nat)
    requires p.Ok() && 0 < |input| <= p.degree * CHUNK_LEN
    ensures Wide(m, p, input, counter) == ChunkCvs(m, input, counter)
    ensures |input| <= p.maxDegree * CHUNK_LEN
  {
    hide ChunkCvs;
  }

  /** left_len */
  method ComputeLeftLen(n: nat) returns (l: nat)
    requires CHUNK_LEN < n < TWO_64
    ensures l == LeftLen(n)
  {
    var fullChunks := (n - 1) / CHUNK_LEN;
    var p := RoundDownToPowerOf2(fullChunks);
    l := p * CHUNK_LEN;
  }

  /** compress_subtree_to_parent_node: the two children of the node, however wide the platform is. */
  method CompressSubtreeToParentNode(m: Mode, p: Platform, input: seq<Byte>, counter: nat)
    returns (left: Cv, right: Cv)
    requires p.Ok() && CHUNK_LEN < |input| < TWO_64
    ensures (left, right) == Children(m, input, counter)
  {
    hide ChunkCvs, PairUp, Fold, FoldPair, Children, Wide, TreeCv;
    var cvArray := new Cv[p.Slots()](_ => EMPTY);
    var numCvs := CompressSubtreeWide(m, p, input, counter, cvArray, 0);
    WideLength(m, p, input, counter);
    WideFold(m, p, input, counter);
    var outArray := new Cv[p.Slots() / 2](_ => EMPTY);
    assert cvArray[..numCvs] == Wide(m, p, input, counter);
    while numCvs > 2
      invariant 2 <= numCvs <= p.Slots()
      invariant FoldPair(m, cvArray[..numCvs]) == Children(m, input, counter)
    {
      PairUpFold(m, cvArray[..numCvs]);
      ghost var row := PairUp(m, cvArray[..numCvs]);
      numCvs := CompressParentsParallel(m, p, cvArray, numCvs, outArray, 0);
      forall i | 0 <= i < numCvs {
        cvArray[i] := outArray[i];
      }
      assert cvArray[..numCvs] == row;
    }
    FoldPairOfTwo(m, cvArray[..2]);
    left, right := cvArray[0], cvArray[1];
  }

  lemma FoldPairOfTwo(m: Mode, cvs: seq<Cv>)
    requires |cvs| == 2
    ensures FoldPair(m, cvs) == (cvs[0], cvs[1])
  {
    assert TopBit(1) == 1;
  }
}
