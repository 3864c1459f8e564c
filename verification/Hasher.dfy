/**
 The incremental hasher of blake3.c: a lazily merged stack of chaining values over
 the chunk state. It is proved to be the tree hash of all bytes it was fed.
 */
module Hasher {
  import opened Bits
  import opened Compression
  import opened Tree
  import opened Chunk
  import opened Subtree

  const MAX_DEPTH: nat := 54

  // ---------- What the stack holds ----------

  /** The chaining value of the node over count chunks from the given one. */
  function NodeCv(m: Mode, msg: seq<Byte>, start: nat, count: nat): Cv
    requires CHUNK_LEN * (start + count) <= |msg|
  {
    TreeCv(m, msg[CHUNK_LEN * start..CHUNK_LEN * (start + count)], start)
  }

  /**
   The merged stack after n chunks: one node for each one digit of n, the largest
   first, over consecutive aligned ranges that cover exactly the n chunks.
   */
  function StackFor(m: Mode, msg: seq<Byte>, n: nat): seq<Cv>
    requires CHUNK_LEN * n <= |msg|
  {
    if n == 0 then []
    else
      LowBitSpec(n);
      StackFor(m, msg, n - LowBit(n)) + [NodeCv(m, msg, n - LowBit(n), LowBit(n))]
  }

  lemma {:induction false} StackDepth(m: Mode, msg: seq<Byte>, n: nat)
    requires CHUNK_LEN * n <= |msg|
    ensures |StackFor(m, msg, n)| == PopCount(n)
  {
    hide NodeCv;
    if n > 0 {
      LowBitSpec(n);
      ClearLowBit(n);
      StackDepth(m, msg, n - LowBit(n));
    }
  }

  lemma {:induction false} StackPrefix(m: Mode, a: seq<Byte>, b: seq<Byte>, n: nat)
    requires CHUNK_LEN * n <= |a| && a <= b
    ensures StackFor(m, a, n) == StackFor(m, b, n)
  {
    hide TreeCv;
    if n > 0 {
      LowBitSpec(n);
      var start, k := n - LowBit(n), LowBit(n);
      StackPrefix(m, a, b, start);
      assert a[CHUNK_LEN * start..CHUNK_LEN * (start + k)] == b[CHUNK_LEN * start..CHUNK_LEN * (start + k)];
    }
  }

  /** A range of chunks: its first chunk and how many there are. */
  datatype Span = Span(start: nat, count: nat)

  /** The ranges of the nodes of the merged stack. */
  function Spans(n: nat): seq<Span> {
    if n == 0 then []
    else
      LowBitSpec(n);
      Spans(n - LowBit(n)) + [Span(n - LowBit(n), LowBit(n))]
  }

  /** Consecutive ranges from chunk 0 up to, but not including, chunk n. */
  ghost predicate Tiles(s: seq<Span>, n: nat) {
    && (forall i :: 0 < i < |s| ==> s[i].start == s[i - 1].start + s[i - 1].count)
    && if s == [] then n == 0 else s[0].start == 0 && s[|s| - 1].start + s[|s| - 1].count == n
  }

  ghost predicate WellFormed(s: seq<Span>) {
    forall i :: 0 <= i < |s| ==> IsPow2(s[i].count) && Aligned(s[i].start, s[i].count)
  }

  /** The chaining values are those of the nodes over the ranges. */
  ghost predicate NodesOf(m: Mode, msg: seq<Byte>, cvs: seq<Cv>, s: seq<Span>) {
    |cvs| == |s| && forall i :: 0 <= i < |s| ==>
      CHUNK_LEN * (s[i].start + s[i].count) <= |msg| && cvs[i] == NodeCv(m, msg, s[i].start, s[i].count)
  }

  /** One more node behind the others. */
  lemma SpanAppend(m: Mode, msg: seq<Byte>, cvs: seq<Cv>, s: seq<Span>, c: nat, k: nat)
    requires Tiles(s, c) && WellFormed(s) && NodesOf(m, msg, cvs, s)
    requires IsPow2(k) && Aligned(c, k) && CHUNK_LEN * (c + k) <= |msg|
    ensures Tiles(s + [Span(c, k)], c + k) && WellFormed(s + [Span(c, k)])
    ensures NodesOf(m, msg, cvs + [NodeCv(m, msg, c, k)], s + [Span(c, k)])
  {
    hide NodeCv, Aligned, IsPow2;
  }

  lemma {:induction false} SpansTile(m: Mode, msg: seq<Byte>, n: nat)
    requires CHUNK_LEN * n <= |msg|
    ensures Tiles(Spans(n), n) && WellFormed(Spans(n)) && NodesOf(m, msg, StackFor(m, msg, n), Spans(n))
  {
    hide NodeCv, Aligned, IsPow2, LowBit, Tiles, WellFormed, NodesOf;
    if n == 0 {
      NoSpans(m, msg);
    } else {
      LowBitSpec(n);
      ClearLowBit(n);
      var c := n - LowBit(n);
      SpansTile(m, msg, c);
      Pow2Double(LowBit(n));
      AlignedWeaken(c, 2 * LowBit(n), LowBit(n));
      SpanAppend(m, msg, StackFor(m, msg, c), Spans(c), c, LowBit(n));
    }
  }

  lemma NoSpans(m: Mode, msg: seq<Byte>)
    ensures Tiles([], 0) && WellFormed([]) && NodesOf(m, msg, [], [])
  {}

  /** The stack before lazy merging: the newest node, over k chunks, lies unmerged on a merged stack. */
  ghost predicate Lazy(m: Mode, msg: seq<Byte>, cvs: seq<Cv>, n: nat, k: nat)
    requires CHUNK_LEN * n <= |msg|
  {
    if n == 0 then cvs == []
    else IsPow2(k) && k <= n && Aligned(n - k, k) && cvs == StackFor(m, msg, n - k) + [NodeCv(m, msg, n - k, k)]
  }

  /** The stack after a whole subtree: its two halves are still separate, so it can become the root. */
  ghost predicate Halves(m: Mode, msg: seq<Byte>, cvs: seq<Cv>, n: nat, k: nat)
    requires CHUNK_LEN * n <= |msg|
  {
    && IsPow2(k) && 2 * k <= n && Aligned(n - 2 * k, 2 * k)
    && cvs == StackFor(m, msg, n - 2 * k) + [NodeCv(m, msg, n - 2 * k, k), NodeCv(m, msg, n - k, k)]
  }

  lemma MergedIsLazy(m: Mode, msg: seq<Byte>, n: nat)
    requires n > 0 && CHUNK_LEN * n <= |msg|
    ensures LowBit(n) <= n && Lazy(m, msg, StackFor(m, msg, n), n, LowBit(n))
  {
    hide NodeCv;
    LowBitSpec(n);
    ClearLowBit(n);
    Pow2Double(LowBit(n));
    AlignedWeaken(n - LowBit(n), 2 * LowBit(n), LowBit(n));
  }

  /** Pushing a node whose size divides the chunks so far keeps the stack lazy. */
  lemma PushIsLazy(m: Mode, msg: seq<Byte>, n: nat, k: nat)
    requires CHUNK_LEN * (n + k) <= |msg| && IsPow2(k) && Aligned(n, k)
    ensures Lazy(m, msg, StackFor(m, msg, n) + [NodeCv(m, msg, n, k)], n + k, k)
  {
    hide NodeCv, StackFor;
  }

  /** With room for the doubled node, the pushed node is merged already. */
  lemma PushIsMerged(m: Mode, msg: seq<Byte>, n: nat, k: nat)
    requires CHUNK_LEN * (n + k) <= |msg| && IsPow2(k) && Aligned(n, 2 * k)
    ensures StackFor(m, msg, n + k) == StackFor(m, msg, n) + [NodeCv(m, msg, n, k)]
  {
    hide NodeCv;
    LowBitOfSum(n, k);
  }

  lemma HalvesAreLazy(m: Mode, msg: seq<Byte>, cvs: seq<Cv>, n: nat, k: nat)
    requires CHUNK_LEN * n <= |msg| && Halves(m, msg, cvs, n, k)
    ensures Lazy(m, msg, cvs, n, k)
  {
    hide NodeCv, StackFor, Aligned;
    var c := n - 2 * k;
    Pow2Double(k);
    PushIsMerged(m, msg, c, k);
    AlignedWeaken(c, 2 * k, k);
    AlignedSelf(k);
    AlignedAdd(c, k, k);
    assert cvs == StackFor(m, msg, n - k) + [NodeCv(m, msg, n - k, k)];
  }

  /** Pushing both halves of a node of 2k chunks onto the merged stack. */
  lemma FormsHalves(m: Mode, msg: seq<Byte>, n: nat, k: nat)
    requires CHUNK_LEN * (n + 2 * k) <= |msg| && IsPow2(k) && Aligned(n, 2 * k)
    ensures Halves(m, msg, StackFor(m, msg, n + k) + [NodeCv(m, msg, n + k, k)], n + 2 * k, k)
    ensures Lazy(m, msg, StackFor(m, msg, n + k) + [NodeCv(m, msg, n + k, k)], n + 2 * k, k)
  {
    hide NodeCv, StackFor, Aligned, IsPow2, Lazy;
    PushIsMerged(m, msg, n, k);
    var cvs := StackFor(m, msg, n + k) + [NodeCv(m, msg, n + k, k)];
    assert cvs == StackFor(m, msg, n) + [NodeCv(m, msg, n, k), NodeCv(m, msg, n + k, k)];
    HalvesAreLazy(m, msg, cvs, n + 2 * k, k);
  }

  lemma HalvesTile(m: Mode, msg: seq<Byte>, cvs: seq<Cv>, n: nat, k: nat)
    requires CHUNK_LEN * n <= |msg| && Halves(m, msg, cvs, n, k)
    ensures 2 * k <= n && k > 0 && var s := Spans(n - 2 * k) + [Span(n - 2 * k, k), Span(n - k, k)];
            Tiles(s, n) && WellFormed(s) && NodesOf(m, msg, cvs, s)
  {
    hide NodeCv, StackFor, Aligned, Spans, Tiles, WellFormed, NodesOf;
    var c := n - 2 * k;
    SpansTile(m, msg, c);
    Pow2Double(k);
    AlignedWeaken(c, 2 * k, k);
    AlignedSelf(k);
    AlignedAdd(c, k, k);
    SpanAppend(m, msg, StackFor(m, msg, c), Spans(c), c, k);
    SpanAppend(m, msg, StackFor(m, msg, c) + [NodeCv(m, msg, c, k)], Spans(c) + [Span(c, k)], c + k, k);
    assert cvs == StackFor(m, msg, c) + [NodeCv(m, msg, c, k)] + [NodeCv(m, msg, c + k, k)];
    assert Spans(c) + [Span(c, k), Span(c + k, k)] == Spans(c) + [Span(c, k)] + [Span(c + k, k)];
  }

  lemma {:induction false} TilesFrom(s: seq<Span>, n: nat, i: nat)
    requires Tiles(s, n) && i < |s|
    ensures s[i].start + s[i].count <= n
    decreases |s| - i
  {
    if i + 1 < |s| {
      TilesFrom(s, n, i + 1);
    }
  }

  /** With more than one range, none of them is everything. */
  lemma TilesBound(s: seq<Span>, n: nat)
    requires Tiles(s, n) && WellFormed(s)
    ensures forall i :: 0 <= i < |s| ==> s[i].count <= n && (|s| > 1 ==> s[i].count < n)
  {
    hide IsPow2, Aligned;
    forall i | 0 <= i < |s|
      ensures s[i].count <= n && (|s| > 1 ==> s[i].count < n)
    {
      TilesFrom(s, n, i);
      Pow2AtLeast1(s[i].count);
      if i > 0 {
        Pow2AtLeast1(s[0].count);
        TilesStart(s, n, i);
      } else if |s| > 1 {
        TilesFrom(s, n, 1);
        Pow2AtLeast1(s[1].count);
      }
    }
  }

  lemma {:induction false} TilesStart(s: seq<Span>, n: nat, i: nat)
    requires Tiles(s, n) && 0 < i < |s|
    ensures s[i].start >= s[0].count
  {
    if i > 1 {
      TilesStart(s, n, i - 1);
    }
  }

  lemma Pow2AtLeast1(k: nat)
    requires IsPow2(k)
    ensures k >= 1
  {}

  /**
   The population count decides each merge: a lazy stack is longer than the count
   exactly when its two top nodes have the same size, and then they are siblings.
   */
  lemma MergeStep(m: Mode, msg: seq<Byte>, cvs: seq<Cv>, n: nat, k: nat)
    requires CHUNK_LEN * n <= |msg| && n > 0 && Lazy(m, msg, cvs, n, k)
    ensures |cvs| <= PopCount(n) ==> cvs == StackFor(m, msg, n)
    ensures |cvs| > PopCount(n) ==>
      && |cvs| >= 2
      && var top := ParentCv(m, cvs[|cvs| - 2], cvs[|cvs| - 1]);
         Lazy(m, msg, cvs[..|cvs| - 2] + [top], n, 2 * k)
  {
    hide NodeCv, StackFor, ParentCv, Aligned, IsPow2, LowBit, PopCount;
    var c := n - k;
    StackDepth(m, msg, c);
    if Aligned(c, 2 * k) {
      PushIsMerged(m, msg, c, k);
      StackDepth(m, msg, n);
    } else {
      LowBitIs(c, k);
      LowBitSpec(c);
      ClearLowBit(c);
      Pow2Double(k);
      PopCountCarry(c - k, 2 * k);
      PushIsMerged(m, msg, c - k, k);
      assert cvs[..|cvs| - 2] == StackFor(m, msg, c - k);
      SiblingsMerge(m, msg, c - k, k);
    }
  }

  lemma SiblingsMerge(m: Mode, msg: seq<Byte>, start: nat, k: nat)
    requires CHUNK_LEN * (start + 2 * k) <= |msg| && IsPow2(k)
    ensures ParentCv(m, NodeCv(m, msg, start, k), NodeCv(m, msg, start + k, k)) == NodeCv(m, msg, start, 2 * k)
  {
    hide TreeOutput, ChainingValue, ParentOutput;
    var bytes := msg[CHUNK_LEN * start..CHUNK_LEN * (start + 2 * k)];
    TreeSplit(m, bytes, start, k);
    assert bytes[..CHUNK_LEN * k] == msg[CHUNK_LEN * start..CHUNK_LEN * (start + k)];
    assert bytes[CHUNK_LEN * k..] == msg[CHUNK_LEN * (start + k)..CHUNK_LEN * (start + k + k)];
  }

  lemma ChunkDepth(n: nat)
    requires CHUNK_LEN * n < TWO_64
    ensures PopCount(n) <= MAX_DEPTH
  {
    Pow2Chunks();
    PopCountBound(n, MAX_DEPTH);
  }

  lemma Pow2Chunks()
    ensures Pow2(MAX_DEPTH) == 0x40_0000_0000_0000
  {
    Pow2Bytes();
    Pow2Plus8(32);
    Pow2Plus8(40);
    assert Pow2(50) == 4 * Pow2(48);
    assert Pow2(52) == 4 * Pow2(50);
  }

  // ---------- The subtree length of the update loop ----------

  /** No larger power of two of chunks both fits in the input and divides the chunks so far. */
  ghost predicate NoLarger(inputLen: nat, counter: nat, k: nat) {
    forall j :: k < j && IsPow2(j) && CHUNK_LEN * j <= inputLen ==> !Aligned(counter, j)
  }

  /**
   The largest power of two of chunks that fits in the input and divides the chunks so
   far: at least one, and when it is one there is more input behind it.
   */
  method PickSubtreeLen(inputLen: nat, counter: nat) returns (subtreeLen: nat, chunks: nat)
    requires CHUNK_LEN < inputLen < TWO_64
    ensures subtreeLen == CHUNK_LEN * chunks <= inputLen
    ensures IsPow2(chunks) && Aligned(counter, chunks) && NoLarger(inputLen, counter, chunks)
    ensures chunks == 1 ==> subtreeLen < inputLen
  {
    hide IsPow2, Aligned, BitAnd, NoLarger, TopBit;
    subtreeLen := RoundDownToPowerOf2(inputLen);
    var countSoFar := counter * CHUNK_LEN;
    ghost var k := FirstCandidate(subtreeLen, inputLen, counter);
    MaskTest(counter, k);
    while BitAnd(subtreeLen - 1, countSoFar) != 0
      invariant k > 0 && subtreeLen == CHUNK_LEN * k <= inputLen && IsPow2(k)
      invariant NoLarger(inputLen, counter, k)
      invariant BitAnd(subtreeLen - 1, countSoFar) == 0 <==> Aligned(counter, k)
      decreases k
    {
      HalveCandidate(inputLen, counter, k);
      HalveChunks(k);
      k := k / 2;
      subtreeLen := subtreeLen / 2;
      MaskTest(counter, k);
    }
    HalveChunks(k);
    chunks := subtreeLen / CHUNK_LEN;
  }

  lemma HalveChunks(k: nat)
    ensures k % 2 == 0 ==> CHUNK_LEN * k / 2 == CHUNK_LEN * (k / 2)
    ensures CHUNK_LEN * k / CHUNK_LEN == k
  {}

  lemma HalveCandidate(inputLen: nat, counter: nat, k: nat)
    requires IsPow2(k) && !Aligned(counter, k) && NoLarger(inputLen, counter, k)
    ensures k == 2 * (k / 2) && k > 1 && IsPow2(k / 2) && NoLarger(inputLen, counter, k / 2)
  {
    forall j | k / 2 < j && IsPow2(j) && CHUNK_LEN * j <= inputLen
      ensures !Aligned(counter, j)
    {
      if j < k {
        Pow2Gap(k / 2, j);
      }
    }
  }

  lemma Pow2Ten()
    ensures IsPow2(CHUNK_LEN)
  {
    assert IsPow2(1024 * 1) by { AlignedBytes(0, 1); }
  }

  /** The first candidate is a whole number of chunks, and nothing larger fits. */
  lemma FirstCandidate(p: nat, n: nat, counter: nat) returns (k: nat)
    requires n > CHUNK_LEN && IsPow2(p) && p <= n < 2 * p
    ensures k > 0 && p == CHUNK_LEN * k && IsPow2(k) && NoLarger(n, counter, k)
  {
    Pow2Ten();
    if p < CHUNK_LEN {
      Pow2Gap(p, CHUNK_LEN);
    }
    k := HalveTen(p);
    forall j | k < j && IsPow2(j)
      ensures CHUNK_LEN * j > n
    {
      Pow2Gap(k, j);
    }
  }

  lemma HalveTen(p: nat) returns (k: nat)
    requires IsPow2(p) && p >= CHUNK_LEN
    ensures p == CHUNK_LEN * k && IsPow2(k)
  {
    var q: nat, s: nat := p, 1;
    while s < CHUNK_LEN
      invariant s in {1, 2, 4, 8, 16, 32, 64, 128, 256, 512, 1024}
      invariant IsPow2(q) && p == s * q
      decreases CHUNK_LEN - s
    {
      q, s := q / 2, 2 * s;
    }
    k := q;
  }

  /** The mask test of the shrinking loop is divisibility of the chunks so far. */
  lemma MaskTest(counter: nat, k: nat)
    requires IsPow2(k)
    ensures IsPow2(CHUNK_LEN * k)
    ensures BitAnd(CHUNK_LEN * k - 1, counter * CHUNK_LEN) == 0 <==> Aligned(counter, k)
  {
    hide BitAnd, Aligned;
    AlignedBytes(counter, k);
    MaskIsMod(CHUNK_LEN * counter, CHUNK_LEN * k);
    AlignedIffMod(CHUNK_LEN * counter, CHUNK_LEN * k);
  }

  // ---------- The hasher ----------

  class Hasher {
    const mode: Mode
    const platform: Platform
    const chunk: ChunkState
    const cvStack: array<Cv>
    var cvStackLen: nat
    /** All bytes fed so far. */
    ghost var msg: seq<Byte>
    /** The size of the two unmerged top nodes while the chunk state is empty. */
    ghost var half: nat

    ghost predicate Shape()
      reads this, chunk, chunk.cv, chunk.buf, cvStack
    {
      && platform.Ok() && chunk.Valid() && chunk.mode == mode
      && cvStack.Length == MAX_DEPTH + 1 && cvStackLen <= cvStack.Length
    }

    ghost function Stack(): seq<Cv>
      requires cvStackLen <= cvStack.Length
      reads this, cvStack
    {
      cvStack[..cvStackLen]
    }

    /** The invariant of every reachable hasher. */
    ghost predicate Valid()
      reads this, chunk, chunk.cv, chunk.buf, cvStack
    {
      && Shape()
      && |msg| < TWO_64
      && CHUNK_LEN * chunk.chunkCounter + |chunk.data| == |msg|
      && chunk.data == msg[CHUNK_LEN * chunk.chunkCounter..]
      && if |chunk.data| > 0 then Stack() == StackFor(mode, msg, chunk.chunkCounter)
         else if msg == [] then Stack() == []
         else Halves(mode, msg, Stack(), chunk.chunkCounter, half)
    }

    /** The ranges of the nodes on the stack. */
    ghost function Ranges(): seq<Span>
      reads this, chunk
    {
      var n := chunk.chunkCounter;
      if |chunk.data| > 0 then Spans(n)
      else if msg == [] || n < 2 * half then []
      else Spans(n - 2 * half) + [Span(n - 2 * half, half), Span(n - half, half)]
    }

    /**
     In every reachable state the stack holds the nodes of consecutive aligned powers of two of
     chunks, covering exactly the finished chunks; none of them covers all input, and the
     length is the population count, or at least two while no chunk is in progress.
     */
    lemma StackInvariant()
      requires Valid()
      ensures NodesOf(mode, msg, Stack(), Ranges()) && WellFormed(Ranges()) && Tiles(Ranges(), chunk.chunkCounter)
      ensures forall i :: 0 <= i < |Ranges()| ==> CHUNK_LEN * Ranges()[i].count < |msg|
      ensures Stack() != [] ==>
        Ranges() != [] && Ranges()[0].start == 0 && Stack()[0] == NodeCv(mode, msg, 0, Ranges()[0].count)
      ensures |chunk.data| > 0 ==> cvStackLen == PopCount(chunk.chunkCounter) <= MAX_DEPTH
      ensures chunk.data == [] && msg != [] ==> 2 <= cvStackLen <= MAX_DEPTH + 1
    {
      hide NodeCv, StackFor, Aligned, IsPow2, Spans, PopCount;
      var n := chunk.chunkCounter;
      if |chunk.data| > 0 {
        SpansTile(mode, msg, n);
        StackDepth(mode, msg, n);
        ChunkDepth(n);
      } else if msg != [] {
        HalvesTile(mode, msg, Stack(), n, half);
      }
      TilesBound(Ranges(), n);
    }

    /** blake3_hasher_init: hasher_init_base with the given key and flags. */
    constructor (mode: Mode, platform: Platform)
      requires platform.Ok()
      ensures Valid() && msg == [] && this.mode == mode && this.platform == platform
      ensures fresh(chunk) && fresh(chunk.cv) && fresh(chunk.buf) && fresh(cvStack)
    {
      this.mode, this.platform := mode, platform;
      chunk := new ChunkState(mode);
      cvStack := new Cv[MAX_DEPTH + 1](_ => EMPTY);
      cvStackLen := 0;
      msg, half := [], 0;
    }

    /** hasher_merge_cv_stack */
    method MergeCvStack(total: nat, ghost bytes: seq<Byte>, ghost k0: nat)
      requires Shape() && CHUNK_LEN * total <= |bytes| && Lazy(mode, bytes, Stack(), total, k0)
      modifies this`cvStackLen, cvStack
      ensures Shape() && Stack() == StackFor(mode, bytes, total)
    {
      hide StackFor, Lazy, ParentCv;
      ghost var k := k0;
      var postMergeStackLen := PopCnt(total);
      MergeEnd(mode, bytes, Stack(), total, k);
      while cvStackLen > postMergeStackLen
        invariant Shape() && Lazy(mode, bytes, Stack(), total, k)
        invariant cvStackLen <= postMergeStackLen ==> Stack() == StackFor(mode, bytes, total)
        invariant total == 0 ==> Stack() == []
      {
        MergeStep(mode, bytes, Stack(), total, k);
        ghost var cvs := Stack();
        cvStack[cvStackLen - 2] := ParentCv(mode, cvStack[cvStackLen - 2], cvStack[cvStackLen - 1]);
        cvStackLen := cvStackLen - 1;
        assert Stack() == cvs[..|cvs| - 2] + [ParentCv(mode, cvs[|cvs| - 2], cvs[|cvs| - 1])];
        k := 2 * k;
        MergeEnd(mode, bytes, Stack(), total, k);
      }
    }

    /** hasher_push_cv: merges what was there before, and leaves the new node unmerged. */
    method PushCv(newCv: Cv, counter: nat, ghost bytes: seq<Byte>, ghost k: nat)
      requires Shape() && CHUNK_LEN * counter <= |bytes| < TWO_64 && Lazy(mode, bytes, Stack(), counter, k)
      modifies this`cvStackLen, cvStack
      ensures Shape() && Stack() == StackFor(mode, bytes, counter) + [newCv]
    {
      hide StackFor, Lazy;
      MergeCvStack(counter, bytes, k);
      StackDepth(mode, bytes, counter);
      ChunkDepth(counter);
      cvStack[cvStackLen] := newCv;
      cvStackLen := cvStackLen + 1;
    }

    /** Between chunks, with the rest of the input still to hash. */
    ghost predicate Between(total: seq<Byte>, rest: seq<Byte>, k: nat)
      reads this, chunk, chunk.cv, chunk.buf, cvStack
    {
      && Shape()
      && chunk.data == []
      && CHUNK_LEN * chunk.chunkCounter + |rest| == |total| < TWO_64
      && rest == total[CHUNK_LEN * chunk.chunkCounter..]
      && Lazy(mode, total, Stack(), chunk.chunkCounter, k)
    }

    /** The chunk in progress takes input first; if it is full and more follows, its value is pushed. */
    method FinishChunk(input0: seq<Byte>, ghost total: seq<Byte>) returns (input: seq<Byte>)
      requires Valid() && |input0| > 0 && |chunk.data| > 0
      requires total == msg + input0 && |total| < TWO_64
      modifies this`cvStackLen, chunk, chunk.cv, chunk.buf, cvStack
      ensures input == [] ==>
        && Shape() && CHUNK_LEN * chunk.chunkCounter + |chunk.data| == |total| && |chunk.data| > 0
        && chunk.data == total[CHUNK_LEN * chunk.chunkCounter..]
        && Stack() == StackFor(mode, total, chunk.chunkCounter)
      ensures input != [] ==> Between(total, input, 1)
    {
      hide StackFor, Lazy, Halves, TreeCv, ChunkOutput, ChainingValue;
      var n := chunk.chunkCounter;
      StackPrefix(mode, msg, total, n);
      var take := CHUNK_LEN - chunk.Len();
      if take > |input0| {
        take := |input0|;
      }
      assert msg[CHUNK_LEN * n..] + input0[..take] == total[CHUNK_LEN * n..|msg| + take];
      chunk.Update(input0[..take]);
      input := input0[take..];
      assert input == total[|msg| + take..];
      if |input| > 0 {
        assert chunk.data == total[CHUNK_LEN * n..CHUNK_LEN * (n + 1)];
        var output := chunk.GetOutput();
        var chunkCv := ChainingValue(mode, output);
        ghost var k := MergedStack(mode, total, n);
        PushCv(chunkCv, n, total, k);
        chunk.Reset(n + 1);
        assert chunkCv == NodeCv(mode, total, n, 1) by { ChunkNode(mode, total, n); }
        PushIsLazy(mode, total, n, 1);
      }
    }

    /** The two children of a subtree go onto the stack one after the other. */
    method PushHalves(left: Cv, right: Cv, n: nat, ghost total: seq<Byte>, k: nat, ghost k0: nat)
      requires Shape() && CHUNK_LEN * (n + 2 * k) <= |total| < TWO_64 && Lazy(mode, total, Stack(), n, k0)
      requires IsPow2(k) && Aligned(n, 2 * k)
      requires left == NodeCv(mode, total, n, k) && right == NodeCv(mode, total, n + k, k)
      modifies this`cvStackLen, cvStack
      ensures Shape() && Lazy(mode, total, Stack(), n + 2 * k, k) && Halves(mode, total, Stack(), n + 2 * k, k)
    {
      hide StackFor, Lazy, Halves, NodeCv, Aligned, IsPow2;
      AlignedWeaken(n, 2 * k, k);
      PushCv(left, n, total, k0);
      PushIsLazy(mode, total, n, k);
      PushCv(right, n + k, total, k);
      FormsHalves(mode, total, n, k);
    }

    /** One round of the update loop: the largest subtree that fits goes onto the stack. */
    method PushSubtree(input0: seq<Byte>, ghost total: seq<Byte>, ghost k0: nat)
      returns (input: seq<Byte>, ghost k: nat)
      requires Between(total, input0, k0) && |input0| > CHUNK_LEN
      modifies this`cvStackLen, chunk`chunkCounter, cvStack
      ensures Between(total, input, k) && |input| < |input0|
      ensures input == [] ==> Halves(mode, total, Stack(), chunk.chunkCounter, k)
    {
      hide StackFor, Lazy, Halves, TreeCv, Children, NodeCv, Aligned, NoLarger;
      var n := chunk.chunkCounter;
      var subtreeLen, subtreeChunks := PickSubtreeLen(|input0|, n);
      var subtree := input0[..subtreeLen];
      assert subtree == total[CHUNK_LEN * n..CHUNK_LEN * (n + subtreeChunks)];
      if subtreeLen <= CHUNK_LEN {
        var cv := HashLastChunk(mode, subtree, n);
        PushCv(cv, n, total, k0);
        k := 1;
        NodeIs(mode, total, n, 1);
        PushIsLazy(mode, total, n, 1);
      } else {
        var left, right := CompressSubtreeToParentNode(mode, platform, subtree, n);
        k := subtreeChunks / 2;
        HalfNodes(mode, total, n, k);
        PushHalves(left, right, n, total, subtreeChunks / 2, k0);
      }
      chunk.chunkCounter := chunk.chunkCounter + subtreeChunks;
      input := input0[subtreeLen..];
    }

    /** The end of an update: what is left goes into the chunk state, and the stack is merged. */
    method FinishInput(input: seq<Byte>, ghost total: seq<Byte>, ghost k: nat)
      requires Between(total, input, k) && |input| <= CHUNK_LEN
      requires input == [] ==> total != [] && Halves(mode, total, Stack(), chunk.chunkCounter, k)
      modifies this, chunk, chunk.cv, chunk.buf, cvStack
      ensures Valid() && msg == total
    {
      hide StackFor, Lazy, Halves;
      if |input| > 0 {
        chunk.Update(input);
        MergeCvStack(chunk.chunkCounter, total, k);
      }
      msg, half := total, k;
    }

    /** blake3_hasher_update: appends the input to the bytes hashed, whatever was fed before. */
    method Update(input0: seq<Byte>)
      requires Valid() && |msg| + |input0| < TWO_64
      modifies this, chunk, chunk.cv, chunk.buf, cvStack
      ensures Valid() && msg == old(msg) + input0
    {
      hide StackFor, Lazy, Halves;
      if |input0| == 0 {
        assert msg + input0 == msg;
        return;
      }
      var input := input0;
      ghost var total := msg + input0;
      ghost var k := half;
      if chunk.Len() > 0 {
        input := FinishChunk(input, total);
        if |input| == 0 {
          msg := total;
          return;
        }
        k := 1;
      } else {
        StartBetween(mode, msg, total, Stack(), chunk.chunkCounter, half);
      }
      while |input| > CHUNK_LEN
        invariant Between(total, input, k) && total != []
        invariant input == [] ==> Halves(mode, total, Stack(), chunk.chunkCounter, k)
        decreases |input|
      {
        input, k := PushSubtree(input, total, k);
      }
      FinishInput(input, total, k);
    }

    /** blake3_hasher_finalize_seek: reads the output stream of the tree over all bytes fed so far. */
    method FinalizeSeek(seek: nat, out: array<Byte>)
      requires Valid() && out != chunk.buf && out as object != cvStack
      modifies out
      ensures Valid()
      ensures out[..] == Hash(mode, msg, seek, out.Length)
    {
      hide StackFor, Halves, ChunkCv, Pad, InnerBlocks, TreeOutput, RootBytes;
      if out.Length == 0 {
        assert out[..] == RootBytes(mode, TreeOutput(mode, msg, 0), seek, 0);
        return;
      }
      var output := RootOutput();
      OutputRootBytes(mode, output, seek, out);
    }

    /** The root node: the chunk in progress or the two top halves, merged with the rest of the stack. */
    method RootOutput() returns (output: Output)
      requires Valid()
      ensures output == TreeOutput(mode, msg, 0)
    {
      hide StackFor, Halves, TreeOutput, ParentOutput, ChainingValue, ChunkOutput, RollUp;
      ghost var n := chunk.chunkCounter;
      if cvStackLen == 0 {
        output := chunk.GetOutput();
        EmptyStack(mode, msg, Stack(), n, half, chunk.data);
        return;
      }
      var cvsRemaining: nat;
      ghost var c: nat;
      if chunk.Len() > 0 {
        cvsRemaining := cvStackLen;
        output := chunk.GetOutput();
        c := n;
        LastChunkNode(mode, msg, n);
      } else {
        HalvesNode(mode, msg, Stack(), n, half);
        cvsRemaining := cvStackLen - 2;
        output := ParentOutput(mode, cvStack[cvsRemaining], cvStack[cvsRemaining + 1]);
        c := n - 2 * half;
      }
      assert cvStack[..cvsRemaining] == Stack()[..cvsRemaining];
      output := RollUpStack(output, cvsRemaining, c);
    }

    /** The loop of finalize_seek: merges the stack, from its top down, into the rightmost node. */
    method RollUpStack(output0: Output, cvsRemaining0: nat, ghost c0: nat) returns (output: Output)
      requires cvsRemaining0 <= cvStack.Length
      requires RollUp(mode, msg, cvStack[..cvsRemaining0], c0, output0)
      ensures output == TreeOutput(mode, msg, 0)
    {
      hide TreeOutput, ParentOutput, ChainingValue, RollUp;
      output := output0;
      var cvsRemaining := cvsRemaining0;
      ghost var c := c0;
      while cvsRemaining > 0
        invariant 0 <= cvsRemaining <= cvStack.Length && RollUp(mode, msg, cvStack[..cvsRemaining], c, output)
        decreases cvsRemaining
      {
        c := RollUpStep(mode, msg, cvStack[..cvsRemaining], c, output);
        cvsRemaining := cvsRemaining - 1;
        assert cvStack[..cvsRemaining + 1][..cvsRemaining] == cvStack[..cvsRemaining];
        output := ParentOutput(mode, cvStack[cvsRemaining], ChainingValue(mode, output));
      }
      assert cvStack[..0] == [];
      RollUpEnd(mode, msg, c, output);
    }

    /** blake3_hasher_reset */
    method Reset()
      requires Valid()
      modifies this, chunk, chunk.cv, chunk.buf
      ensures Valid() && msg == []
    {
      chunk.Reset(0);
      cvStackLen := 0;
      msg := [];
    }
  }

  // ---------- Steps of the proof ----------

  lemma MergeEnd(m: Mode, msg: seq<Byte>, cvs: seq<Cv>, n: nat, k: nat)
    requires CHUNK_LEN * n <= |msg| && Lazy(m, msg, cvs, n, k)
    ensures |cvs| <= PopCount(n) ==> cvs == StackFor(m, msg, n)
    ensures n == 0 ==> cvs == []
  {
    hide NodeCv;
    if n > 0 {
      MergeStep(m, msg, cvs, n, k);
    }
  }

  lemma MergedStack(m: Mode, msg: seq<Byte>, n: nat) returns (k: nat)
    requires CHUNK_LEN * n <= |msg|
    ensures Lazy(m, msg, StackFor(m, msg, n), n, k)
  {
    hide NodeCv;
    k := 1;
    if n > 0 {
      k := LowBit(n);
      MergedIsLazy(m, msg, n);
    }
  }

  lemma NodeIs(m: Mode, msg: seq<Byte>, start: nat, count: nat)
    requires CHUNK_LEN * (start + count) <= |msg|
    ensures NodeCv(m, msg, start, count)
         == TreeCv(m, msg[CHUNK_LEN * start..CHUNK_LEN * (start + count)], start)
  {}

  lemma ChunkNode(m: Mode, msg: seq<Byte>, n: nat)
    requires CHUNK_LEN * (n + 1) <= |msg|
    ensures ChainingValue(m, ChunkOutput(m, msg[CHUNK_LEN * n..CHUNK_LEN * (n + 1)], n)) == NodeCv(m, msg, n, 1)
  {}

  /** The two children of a node over 2k chunks. */
  lemma HalfNodes(m: Mode, msg: seq<Byte>, n: nat, k: nat)
    requires CHUNK_LEN * (n + 2 * k) <= |msg| && IsPow2(k)
    ensures CHUNK_LEN < |msg[CHUNK_LEN * n..CHUNK_LEN * (n + 2 * k)]|
    ensures Children(m, msg[CHUNK_LEN * n..CHUNK_LEN * (n + 2 * k)], n)
         == (NodeCv(m, msg, n, k), NodeCv(m, msg, n + k, k))
  {
    hide TreeCv;
    var bytes := msg[CHUNK_LEN * n..CHUNK_LEN * (n + 2 * k)];
    LeftLenUnique(|bytes|, k);
    assert bytes[..CHUNK_LEN * k] == msg[CHUNK_LEN * n..CHUNK_LEN * (n + k)];
    assert bytes[CHUNK_LEN * k..] == msg[CHUNK_LEN * (n + k)..CHUNK_LEN * (n + k + k)];
  }

  /** An empty chunk state: the stack of the old bytes is a lazy stack of the longer ones. */
  lemma StartBetween(m: Mode, msg: seq<Byte>, total: seq<Byte>, cvs: seq<Cv>, n: nat, k: nat)
    requires msg <= total && CHUNK_LEN * n == |msg|
    requires if msg == [] then cvs == [] else Halves(m, msg, cvs, n, k)
    ensures Lazy(m, total, cvs, n, k)
  {
    hide StackFor, NodeCv, Halves;
    if msg != [] {
      HalvesPrefix(m, msg, total, cvs, n, k);
      HalvesAreLazy(m, total, cvs, n, k);
    }
  }

  lemma HalvesPrefix(m: Mode, msg: seq<Byte>, total: seq<Byte>, cvs: seq<Cv>, n: nat, k: nat)
    requires msg <= total && CHUNK_LEN * n <= |msg| && Halves(m, msg, cvs, n, k)
    ensures Halves(m, total, cvs, n, k)
  {
    hide StackFor, NodeCv, Aligned;
    StackPrefix(m, msg, total, n - 2 * k);
    NodePrefix(m, msg, total, n - 2 * k, k);
    NodePrefix(m, msg, total, n - k, k);
  }

  lemma NodePrefix(m: Mode, a: seq<Byte>, b: seq<Byte>, start: nat, count: nat)
    requires CHUNK_LEN * (start + count) <= |a| && a <= b
    ensures NodeCv(m, a, start, count) == NodeCv(m, b, start, count)
  {
    assert a[CHUNK_LEN * start..CHUNK_LEN * (start + count)] == b[CHUNK_LEN * start..CHUNK_LEN * (start + count)];
  }

  /** The output rolled up so far is the node over all bytes from chunk c on; the rest of the stack covers c. */
  ghost predicate RollUp(m: Mode, msg: seq<Byte>, cvs: seq<Cv>, c: nat, o: Output) {
    && CHUNK_LEN * c <= |msg|
    && cvs == StackFor(m, msg, c)
    && o == TreeOutput(m, msg[CHUNK_LEN * c..], c)
    && (c > 0 ==> 0 < |msg| - CHUNK_LEN * c <= CHUNK_LEN * LowBit(c))
  }

  lemma EmptyStack(m: Mode, msg: seq<Byte>, cvs: seq<Cv>, n: nat, k: nat, data: seq<Byte>)
    requires cvs == [] && CHUNK_LEN * n <= |msg| && data == msg[CHUNK_LEN * n..] && |data| <= CHUNK_LEN
    requires if |data| > 0 then cvs == StackFor(m, msg, n) else msg == [] || Halves(m, msg, cvs, n, k)
    ensures n == 0 && data == msg && TreeOutput(m, msg, 0) == ChunkOutput(m, data, n)
  {
    hide ChunkOutput, NodeCv;
    if |data| > 0 && n > 0 {
      StackDepth(m, msg, n);
      LowBitSpec(n);
      ClearLowBit(n);
    }
  }

  lemma LastChunkNode(m: Mode, msg: seq<Byte>, n: nat)
    requires CHUNK_LEN * n < |msg| <= CHUNK_LEN * (n + 1)
    ensures RollUp(m, msg, StackFor(m, msg, n), n, ChunkOutput(m, msg[CHUNK_LEN * n..], n))
  {
    hide ChunkOutput, StackFor;
    if n > 0 {
      LowBitSpec(n);
    }
  }

  lemma HalvesNode(m: Mode, msg: seq<Byte>, cvs: seq<Cv>, n: nat, k: nat)
    requires |msg| == CHUNK_LEN * n && Halves(m, msg, cvs, n, k)
    ensures |cvs| >= 2 && 2 * k <= n
    ensures RollUp(m, msg, cvs[..|cvs| - 2], n - 2 * k, ParentOutput(m, cvs[|cvs| - 2], cvs[|cvs| - 1]))
  {
    hide StackFor, TreeOutput, ParentOutput, ChainingValue;
    var c := n - 2 * k;
    var bytes := msg[CHUNK_LEN * c..];
    TreeSplit(m, bytes, c, k);
    assert bytes[..CHUNK_LEN * k] == msg[CHUNK_LEN * c..CHUNK_LEN * (c + k)];
    assert bytes[CHUNK_LEN * k..] == msg[CHUNK_LEN * (c + k)..CHUNK_LEN * (c + k + k)];
    if c > 0 {
      Pow2Double(k);
      AlignedIffLowBit(c, 2 * k);
    }
    assert cvs[..|cvs| - 2] == StackFor(m, msg, c);
  }

  lemma RollUpStep(m: Mode, msg: seq<Byte>, cvs: seq<Cv>, c: nat, o: Output) returns (b: nat)
    requires RollUp(m, msg, cvs, c, o) && |cvs| > 0
    ensures RollUp(m, msg, cvs[..|cvs| - 1], b, ParentOutput(m, cvs[|cvs| - 1], ChainingValue(m, o)))
  {
    hide TreeOutput, ParentOutput, ChainingValue;
    var k := LowBit(c);
    LowBitSpec(c);
    ClearLowBit(c);
    b := c - k;
    var bytes := msg[CHUNK_LEN * b..];
    TreeSplit(m, bytes, b, k);
    assert bytes[..CHUNK_LEN * k] == msg[CHUNK_LEN * b..CHUNK_LEN * (b + k)];
    assert bytes[CHUNK_LEN * k..] == msg[CHUNK_LEN * c..];
    if b > 0 {
      Pow2Double(k);
      AlignedIffLowBit(b, 2 * k);
    }
    assert cvs[..|cvs| - 1] == StackFor(m, msg, b);
  }

  lemma RollUpEnd(m: Mode, msg: seq<Byte>, c: nat, o: Output)
    requires RollUp(m, msg, [], c, o)
    ensures o == TreeOutput(m, msg, 0)
  {
    hide TreeOutput, NodeCv;
    if c > 0 {
      LowBitSpec(c);
    }
    assert msg[0..] == msg;
  }

  // ---------- Reading the output ----------

  /** Cells at, ..., at + n - 1 hold the output stream from position p on. */
  ghost predicate Streams(m: Mode, o: Output, p: nat, out: array<Byte>, at: nat, n: nat)
    reads out
  {
    at + n <= out.Length && forall i :: at <= i < at + n ==> out[i] == RootByte(m, o, p + (i - at))
  }

  /** blake3_xof_many: whole blocks of the output stream. */
  method XofMany(m: Mode, o: Output, counter: nat, out: array<Byte>, at: nat, blocks: nat)
    requires at + blocks * BLOCK_LEN <= out.Length
    modifies out
    ensures Streams(m, o, counter * BLOCK_LEN, out, at, blocks * BLOCK_LEN)
    ensures forall i :: 0 <= i < out.Length && !(at <= i < at + blocks * BLOCK_LEN) ==> out[i] == old(out[i])
  {
    hide RootByte;
    for b := 0 to blocks
      invariant Streams(m, o, counter * BLOCK_LEN, out, at, b * BLOCK_LEN)
      invariant forall i :: 0 <= i < out.Length && !(at <= i < at + b * BLOCK_LEN) ==> out[i] == old(out[i])
    {
      WriteBlock(m, o, (counter + b) * BLOCK_LEN, out, at + b * BLOCK_LEN, BLOCK_LEN);
    }
  }

  /** Copies at most to the end of one block of the output stream, starting at position p. */
  method WriteBlock(m: Mode, o: Output, p: nat, out: array<Byte>, at: nat, n: nat)
    requires at + n <= out.Length && p % BLOCK_LEN + n <= BLOCK_LEN
    modifies out
    ensures Streams(m, o, p, out, at, n)
    ensures forall i :: 0 <= i < out.Length && !(at <= i < at + n) ==> out[i] == old(out[i])
  {
    hide RootBlock;
    var wideBuf := RootBlock(m, o, p / BLOCK_LEN);
    forall i | 0 <= i < n {
      out[at + i] := wideBuf[p % BLOCK_LEN + i];
    }
    forall i | at <= i < at + n
      ensures out[i] == RootByte(m, o, p + (i - at))
    {
      SameBlock(p, i - at);
    }
  }

  lemma SameBlock(p: nat, i: nat)
    requires p % BLOCK_LEN + i < BLOCK_LEN
    ensures (p + i) / BLOCK_LEN == p / BLOCK_LEN && (p + i) % BLOCK_LEN == p % BLOCK_LEN + i
  {}

  /** output_root_bytes: a partial first block, whole blocks, and a partial last block. */
  method OutputRootBytes(m: Mode, o: Output, seek: nat, out: array<Byte>)
    modifies out
    ensures out[..] == RootBytes(m, o, seek, out.Length)
  {
    hide RootByte;
    var at, outLen := 0, out.Length;
    var blockCounter, offset := seek / BLOCK_LEN, seek % BLOCK_LEN;
    if outLen == 0 {
      return;
    }
    if offset != 0 {
      var available := BLOCK_LEN - offset;
      var bytes := if outLen > available then available else outLen;
      WriteBlock(m, o, seek, out, 0, bytes);
      at, outLen := bytes, outLen - bytes;
      blockCounter := blockCounter + 1;
    }
    assert outLen > 0 ==> blockCounter * BLOCK_LEN == seek + at;
    var blocks := outLen / BLOCK_LEN;
    XofMany(m, o, blockCounter, out, at, blocks);
    assert Streams(m, o, seek, out, 0, at + blocks * BLOCK_LEN);
    blockCounter := blockCounter + blocks;
    at, outLen := at + blocks * BLOCK_LEN, outLen % BLOCK_LEN;
    if outLen != 0 {
      WriteBlock(m, o, blockCounter * BLOCK_LEN, out, at, outLen);
    }
    assert Streams(m, o, seek, out, 0, out.Length);
  }

  // ---------- Whole runs ----------

  function Concat(pieces: seq<seq<Byte>>): seq<Byte> {
    if pieces == [] then [] else Concat(pieces[..|pieces| - 1]) + pieces[|pieces| - 1]
  }

  lemma {:induction false} ConcatGrows(pieces: seq<seq<Byte>>, i: nat)
    requires i <= |pieces|
    ensures |Concat(pieces[..i])| <= |Concat(pieces)|
    decreases |pieces| - i
  {
    if i == |pieces| {
      assert pieces[..i] == pieces;
    } else {
      ConcatGrows(pieces, i + 1);
      assert pieces[..i + 1][..i] == pieces[..i];
    }
  }

  /**
   For every way of cutting a message into updates, on every platform, the result is
   the tree hash of the whole message; finalizing in between changes nothing.
   */
  method HashPieces(mode: Mode, platform: Platform, pieces: seq<seq<Byte>>, seek: nat, n: nat)
    returns (out: seq<Byte>)
    requires platform.Ok() && |Concat(pieces)| < TWO_64
    ensures out == Hash(mode, Concat(pieces), seek, n)
  {
    var hasher := new Hasher(mode, platform);
    var buffer := new Byte[n](_ => 0);
    for i := 0 to |pieces|
      invariant hasher.Valid() && hasher.msg == Concat(pieces[..i])
      invariant fresh(hasher) && fresh(hasher.chunk) && fresh(hasher.chunk.cv) && fresh(hasher.chunk.buf)
      invariant fresh(hasher.cvStack) && fresh(buffer)
      invariant buffer != hasher.chunk.buf && buffer as object != hasher.cvStack
    {
      assert pieces[..i + 1][..i] == pieces[..i];
      ConcatGrows(pieces, i + 1);
      hasher.FinalizeSeek(seek, buffer);
      hasher.Update(pieces[i]);
    }
    assert pieces[..|pieces|] == pieces;
    hasher.FinalizeSeek(seek, buffer);
    out := buffer[..];
  }

  /** blake3_hash of hashing.cpp: one update, unless there is nothing to feed, and 32 bytes of output. */
  method Blake3Hash(platform: Platform, data: seq<Byte>) returns (hash: Cv)
    requires platform.Ok() && |data| < TWO_64
    ensures hash == Hash(Mode(Blake3Compress, IV, 0), data, 0, OUT_LEN)
  {
    hide Blake3Compress, Hash;
    var hasher := new Hasher(Mode(Blake3Compress, IV, 0), platform);
    assert [] + data == data;
    if |data| > 0 {
      hasher.Update(data);
    }
    var buffer := new Byte[OUT_LEN](_ => 0);
    hasher.FinalizeSeek(0, buffer);
    hash := buffer[..];
  }
}
