/**
 FIDESlib's sums of many ciphertexts: a queue-like tree into fresh ciphertexts, and an
 in-place tree over a vector of ciphertext objects.
 */
module TreeSums {
  import opened Bits
  import opened Packed
  import opened Wrappers

  /** The plain sum, in slot i, of entries lo, ..., hi - 1. */
  function Total(xs: seq<Slots>, lo: nat, hi: nat, i: nat): real
    requires hi <= |xs| && forall k :: 0 <= k < |xs| ==> i < |xs[k]|
    decreases hi
  {
    if hi <= lo then 0.0 else Total(xs, lo, hi - 1, i) + xs[hi - 1][i]
  }

  ghost predicate SameSize(xs: seq<Slots>, n: nat) {
    forall k :: 0 <= k < |xs| ==> |xs[k]| == n
  }

  lemma {:induction false} TotalSplit(xs: seq<Slots>, lo: nat, mid: nat, hi: nat, i: nat)
    requires lo <= mid <= hi <= |xs| && forall k :: 0 <= k < |xs| ==> i < |xs[k]|
    ensures Total(xs, lo, hi, i) == Total(xs, lo, mid, i) + Total(xs, mid, hi, i)
  {
    if mid < hi {
      TotalSplit(xs, lo, mid, hi - 1, i);
    }
  }

  lemma {:induction false} TotalPrefix(xs: seq<Slots>, ys: seq<Slots>, lo: nat, hi: nat, i: nat)
    requires hi <= |xs| <= |ys| && xs == ys[..|xs|]
    requires forall k :: 0 <= k < |ys| ==> i < |ys[k]|
    ensures Total(xs, lo, hi, i) == Total(ys, lo, hi, i)
  {
    if hi > lo {
      TotalPrefix(xs, ys, lo, hi - 1, i);
    }
  }

  // ---------- EvalAddMany ----------

  /** Every entry of the queue, inputs first and then the sums made so far, still to be consumed. */
  ghost predicate Pending(xs: seq<Slots>, queue: seq<Slots>, used: nat, n: nat) {
    && used <= |queue| && SameSize(queue, n) && SameSize(xs, n)
    && forall i :: 0 <= i < n ==> Total(queue, used, |queue|, i) == Total(xs, 0, |xs|, i)
  }

  /** Consuming two entries and appending their sum keeps what is pending. */
  lemma PendingStep(xs: seq<Slots>, queue: seq<Slots>, used: nat, n: nat)
    requires Pending(xs, queue, used, n) && used + 2 <= |queue|
    ensures Pending(xs, queue + [Add(queue[used], queue[used + 1])], used + 2, n)
  {
    var sum := Add(queue[used], queue[used + 1]);
    var next := queue + [sum];
    forall i | 0 <= i < n
      ensures Total(next, used + 2, |next|, i) == Total(xs, 0, |xs|, i)
    {
      TotalSplit(queue, used, used + 2, |queue|, i);
      TotalPrefix(queue, next, used + 2, |queue|, i);
      assert Total(queue, used, used + 1, i) == queue[used][i];
      assert Total(queue, used, used + 2, i) == queue[used][i] + queue[used + 1][i];
      assert sum[i] == queue[used][i] + queue[used + 1][i];
    }
  }

  /** The queue that the inputs and the first sums form. */
  ghost predicate QueueIs(queue: seq<Slots>, xs: seq<Slots>, sums: seq<Option<Slots>>, made: nat) {
    && made <= |sums| && |queue| == |xs| + made && queue[..|xs|] == xs
    && forall k :: 0 <= k < made ==> sums[k] == Some(queue[|xs| + k])
  }

  /**
   EvalAddMany on the device: the sum of all inputs, for two or more of them. Each step
   takes the next two entries of inputs and earlier sums; none of them is ever unset.
   */
  method EvalAddMany(xs: seq<Slots>, n: nat) returns (r: Outcome<Slots>)
    requires SameSize(xs, n) && |xs| != 1
    ensures r.WrongInputCount? <==> xs == []
    ensures r.Ok? ==> |r.value| == n && forall i :: 0 <= i < n ==> r.value[i] == Total(xs, 0, |xs|, i)
  {
    if xs == [] {
      return WrongInputCount;
    }
    hide Total;
    var inSize := |xs|;
    var lim := inSize * 2 - 2;
    var sums: seq<Option<Slots>> := seq(inSize - 1, _ => None);
    var ctr: nat := 0;
    ghost var queue := xs;
    var i := 0;
    while i < lim
      invariant i == 2 * ctr && ctr <= inSize - 1 && |sums| == inSize - 1
      invariant QueueIs(queue, xs, sums, ctr) && Pending(xs, queue, i, n)
    {
      var left := if i < inSize then xs[i] else sums[i - inSize].value;
      var right := if i + 1 < inSize then xs[i + 1] else sums[i + 1 - inSize].value;
      assert left == queue[i] && right == queue[i + 1];
      PendingStep(xs, queue, i, n);
      queue := queue + [Add(left, right)];
      sums := sums[ctr := Some(Add(left, right))];
      ctr := ctr + 1;
      i := i + 2;
    }
    r := Ok(sums[|sums| - 1].value);
    forall j | 0 <= j < n
      ensures r.value[j] == Total(xs, 0, |xs|, j)
    {
      assert r.value == queue[|queue| - 1];
      LastOnly(queue, j);
    }
  }

  lemma LastOnly(queue: seq<Slots>, i: nat)
    requires queue != [] && forall k :: 0 <= k < |queue| ==> i < |queue[k]|
    ensures Total(queue, |queue| - 1, |queue|, i) == queue[|queue| - 1][i]
  {}

  // ---------- EvalAddManyInPlace ----------

  /** EvalAddInPlace on the values of two ciphertexts of the same size. */
  function AddSlots(x: Slots, y: Slots): Slots {
    if |x| == |y| then Add(x, y) else x
  }

  /** Every entry refers to a stored value of n slots. */
  ghost predicate Stored<T>(refs: seq<T>, s: map<T, Slots>, n: nat) {
    forall k :: 0 <= k < |refs| ==> refs[k] in s && |s[refs[k]]| == n
  }

  /** The inputs, entry by entry; an object may be at several of them. */
  ghost function Inputs<T>(refs: seq<T>, s: map<T, Slots>): (xs: seq<Slots>)
    requires forall k :: 0 <= k < |refs| ==> refs[k] in s
    ensures |xs| == |refs|
  {
    seq(|refs|, k requires 0 <= k < |refs| => s[refs[k]])
  }

  /** One step of the inner loop: entry i takes entry i + j, if there is one. */
  ghost function AddStep<T>(refs: seq<T>, s: map<T, Slots>, j: nat, i: nat): (t: map<T, Slots>)
    requires i < |refs| && j > 0 && forall k :: 0 <= k < |refs| ==> refs[k] in s
    ensures t.Keys == s.Keys
  {
    if i + j < |refs| then s[refs[i] := AddSlots(s[refs[i]], s[refs[i + j]])] else s
  }

  /** The inner loop from i on. */
  ghost function AddRound<T>(refs: seq<T>, s: map<T, Slots>, j: nat, i: nat): (t: map<T, Slots>)
    requires j > 0 && forall k :: 0 <= k < |refs| ==> refs[k] in s
    ensures t.Keys == s.Keys
    decreases |refs| - i
  {
    if i >= |refs| then s else AddRound(refs, AddStep(refs, s, j, i), j, i + 2 * j)
  }

  /** The outer loop from j on. */
  ghost function AddRounds<T>(refs: seq<T>, s: map<T, Slots>, j: nat): (t: map<T, Slots>)
    requires j > 0 && forall k :: 0 <= k < |refs| ==> refs[k] in s
    ensures t.Keys == s.Keys
    decreases |refs| - j
  {
    if j >= |refs| then s else AddRounds(refs, AddRound(refs, s, j, 0), j * 2)
  }

  // Which entries are still to be read before the step (j, at): j is a power of two and at
  // a multiple of 2j.

  ghost predicate Turn(j: nat, at: nat) {
    IsPow2(j) && Aligned(at, 2 * j)
  }

  ghost predicate Unread(k: nat, j: nat, at: nat) {
    Aligned(k, 2 * j) || (k >= at && Aligned(k, j))
  }

  /** The end of the block that entry k stands for before the step (j, at). */
  function End(k: nat, j: nat, at: nat, len: nat): nat {
    var e := k + if k < at then 2 * j else j;
    if e < len then e else len
  }

  lemma TurnNext(j: nat, at: nat)
    requires Turn(j, at)
    ensures j > 0 && Turn(j, at + 2 * j) && Turn(2 * j, 0)
  {
    Pow2Double(j);
    Pow2Double(2 * j);
    AlignedSelf(2 * j);
    AlignedAdd(at, 2 * j, 2 * j);
    AlignedSelf(2 * (2 * j));
  }

  /** The step (j, i) reads entry i + j for the last time, and changes no other block than entry i's. */
  lemma StepReads(k: nat, j: nat, i: nat, len: nat)
    requires Turn(j, i) && i < len
    ensures Unread(i, j, i) && Unread(i, j, i + 2 * j) && Unread(i + j, j, i) && !Unread(i + j, j, i + 2 * j)
    ensures End(i, j, i, len) == if i + j < len then i + j else len
    ensures End(i + j, j, i, len) == End(i, j, i + 2 * j, len)
    ensures Unread(k, j, i + 2 * j) ==>
      Unread(k, j, i) && k != i + j && (k == i || End(k, j, i + 2 * j, len) == End(k, j, i, len))
  {
    TurnNext(j, i);
    AlignedSelf(j);
    AlignedWeaken(i, 2 * j, j);
    AlignedAdd(i, j, j);
    NotAlignedBetween(i, i + j, j);
    if Unread(k, j, i + 2 * j) && i < k < i + 2 * j {
      NotAlignedBetween(i, k, j);
    }
  }

  lemma NotAlignedBetween(i: nat, k: nat, j: nat)
    requires IsPow2(j) && Aligned(i, 2 * j) && i < k < i + 2 * j
    ensures !Aligned(k, 2 * j)
  {
    Pow2Double(j);
    if Aligned(k, 2 * j) {
      AlignedSub(k, i, 2 * j);
      AlignedIffLowBit(k - i, 2 * j);
      LowBitSpec(k - i);
    }
  }

  /** A finished round of j is the start of the round of 2j. */
  lemma RoundReads(k: nat, j: nat, at: nat, len: nat)
    requires Turn(j, at) && at >= len && k < len
    ensures Unread(k, 2 * j, 0) ==> Unread(k, j, at) && End(k, 2 * j, 0, len) == End(k, j, at, len)
  {
    TurnNext(j, at);
    if Aligned(k, 2 * (2 * j)) {
      TurnNext(2 * j, 0);
      Pow2Double(2 * j);
      AlignedWeaken(k, 2 * (2 * j), 2 * j);
    }
  }

  /** At the end entry 0 is the only one still to be read, and its block is everything. */
  lemma LastReads(k: nat, j: nat, len: nat)
    requires Turn(j, 0) && k < len <= j
    ensures Unread(k, j, 0) ==> k == 0
    ensures Unread(0, j, 0) && End(0, j, 0, len) == len
  {
    TurnNext(j, 0);
    AlignedSelf(j);
    if k > 0 && Unread(k, j, 0) {
      if Aligned(k, 2 * j) {
        AlignedWeaken(k, 2 * j, j);
      }
      AlignedIffLowBit(k, j);
      LowBitSpec(k);
    }
  }

  // ---------- When the total is right ----------

  /** An object at two entries does no harm if it is at the first of them only to be read, or at neighbours. */
  ghost predicate Harmless<T>(refs: seq<T>) {
    forall p, q :: 0 <= p < q < |refs| && refs[p] == refs[q] ==> p % 2 == 1 || q == p + 1
  }

  /** The value is the sum of a block of inputs. */
  ghost predicate Sums(xs: seq<Slots>, ct: Slots, i: nat, hi: nat, n: nat) {
    && SameSize(xs, n) && |ct| == n && hi <= |xs|
    && forall s :: 0 <= s < n ==> ct[s] == Total(xs, i, hi, s)
  }

  /** Every entry still to be read holds the sum of its block. */
  ghost predicate Exact<T>(refs: seq<T>, s: map<T, Slots>, xs: seq<Slots>, j: nat, at: nat, n: nat) {
    && Stored(refs, s, n) && |xs| == |refs| && SameSize(xs, n)
    && forall k :: 0 <= k < |refs| && Unread(k, j, at) ==> Sums(xs, s[refs[k]], k, End(k, j, at, |refs|), n)
  }

  lemma JoinBlocks(xs: seq<Slots>, a: Slots, b: Slots, i: nat, mid: nat, hi: nat, n: nat)
    requires i <= mid <= hi && Sums(xs, a, i, mid, n) && Sums(xs, b, mid, hi, n)
    ensures Sums(xs, AddSlots(a, b), i, hi, n)
  {
    forall s | 0 <= s < n
      ensures AddSlots(a, b)[s] == Total(xs, i, hi, s)
    {
      TotalSplit(xs, i, mid, hi, s);
    }
  }

  lemma StepKeepsStored<T>(refs: seq<T>, s: map<T, Slots>, j: nat, i: nat, n: nat)
    requires Stored(refs, s, n) && i < |refs| && j > 0
    ensures Stored(refs, AddStep(refs, s, j, i), n)
  {}

  /** An object that a step changes is at no other entry that is still to be read. */
  lemma HarmlessApart<T>(refs: seq<T>, j: nat, i: nat, k: nat)
    requires Harmless(refs) && Turn(j, i) && i + j < |refs| && k < |refs|
    requires Unread(k, j, i + 2 * j) && k != i
    ensures refs[k] != refs[i]
  {
    StepReads(k, j, i, |refs|);
    TurnNext(j, i);
    assert i % 2 == 0;
    if j > 1 || k < i {
      UnreadIsEven(k, j, i + 2 * j);
    }
  }

  lemma UnreadIsEven(k: nat, j: nat, at: nat)
    requires Turn(j, at) && Unread(k, j, at) && (j > 1 || k < at)
    ensures k % 2 == 0
  {}

  lemma StepKeepsExact<T>(refs: seq<T>, s: map<T, Slots>, xs: seq<Slots>, j: nat, i: nat, n: nat)
    requires Harmless(refs) && Turn(j, i) && i < |refs| && j > 0 && Exact(refs, s, xs, j, i, n)
    ensures Exact(refs, AddStep(refs, s, j, i), xs, j, i + 2 * j, n)
  {
    hide Sums, Turn, Unread, End, AddSlots, Harmless;
    var t, len := AddStep(refs, s, j, i), |refs|;
    StepKeepsStored(refs, s, j, i, n);
    forall k | 0 <= k < len && Unread(k, j, i + 2 * j)
      ensures Sums(xs, t[refs[k]], k, End(k, j, i + 2 * j, len), n)
    {
      StepReads(k, j, i, len);
      if i + j < len {
        if k == i {
          EndBounds(i, j, i, len);
          EndBounds(i + j, j, i, len);
          JoinBlocks(xs, s[refs[i]], s[refs[i + j]], i, i + j, End(i + j, j, i, len), n);
        } else {
          HarmlessApart(refs, j, i, k);
        }
      } else if k == i {
        EndAtLast(i, j, len);
      }
    }
  }

  lemma EndBounds(k: nat, j: nat, at: nat, len: nat)
    requires k < len
    ensures k <= End(k, j, at, len) <= len
  {}

  lemma EndAtLast(i: nat, j: nat, len: nat)
    requires i < len <= i + j
    ensures End(i, j, i + 2 * j, len) == End(i, j, i, len)
  {}

  lemma {:induction false} RoundKeepsExact<T>(refs: seq<T>, s: map<T, Slots>, xs: seq<Slots>, j: nat, i: nat, n: nat)
    requires Harmless(refs) && Turn(j, i) && j > 0 && Exact(refs, s, xs, j, i, n)
    ensures Exact(refs, AddRound(refs, s, j, i), xs, 2 * j, 0, n)
    decreases |refs| - i
  {
    hide Sums, Turn, Unread, End, AddStep, Harmless;
    if i >= |refs| {
      forall k | 0 <= k < |refs| && Unread(k, 2 * j, 0)
        ensures Sums(xs, s[refs[k]], k, End(k, 2 * j, 0, |refs|), n)
      {
        RoundReads(k, j, i, |refs|);
      }
    } else {
      TurnNext(j, i);
      StepKeepsExact(refs, s, xs, j, i, n);
      RoundKeepsExact(refs, AddStep(refs, s, j, i), xs, j, i + 2 * j, n);
    }
  }

  lemma {:induction false} RoundsKeepExact<T>(refs: seq<T>, s: map<T, Slots>, xs: seq<Slots>, j: nat, n: nat)
    requires refs != [] && Harmless(refs) && Turn(j, 0) && j > 0 && Exact(refs, s, xs, j, 0, n)
    ensures Sums(xs, AddRounds(refs, s, j)[refs[0]], 0, |refs|, n)
    decreases |refs| - j
  {
    hide Sums, Turn, Unread, End, AddRound, Harmless;
    if j >= |refs| {
      LastReads(0, j, |refs|);
    } else {
      RoundKeepsExact(refs, s, xs, j, 0, n);
      TurnNext(j, 0);
      RoundsKeepExact(refs, AddRound(refs, s, j, 0), xs, j * 2, n);
    }
  }

  /** Before the first round every entry holds its own input. */
  lemma StartsExact<T>(refs: seq<T>, s: map<T, Slots>, n: nat)
    requires Stored(refs, s, n)
    ensures Turn(1, 0) && Exact(refs, s, Inputs(refs, s), 1, 0, n)
  {
    var xs := Inputs(refs, s);
    AlignedSelf(2);
    forall k | 0 <= k < |refs|
      ensures Sums(xs, s[refs[k]], k, End(k, 1, 0, |refs|), n)
    {
      forall i | 0 <= i < n
        ensures xs[k][i] == Total(xs, k, k + 1, i)
      {
        assert Total(xs, k, k, i) == 0.0;
      }
    }
  }

  /** If sharing is harmless, entry 0 ends as the plain sum of all inputs, whatever they are. */
  lemma HarmlessIsSum<T>(refs: seq<T>, s: map<T, Slots>, n: nat)
    requires refs != [] && Stored(refs, s, n) && Harmless(refs)
    ensures Sums(Inputs(refs, s), AddRounds(refs, s, 1)[refs[0]], 0, |refs|, n)
  {
    hide Sums, Exact, Turn, Harmless;
    StartsExact(refs, s, n);
    RoundsKeepExact(refs, s, Inputs(refs, s), 1, n);
  }

  // ---------- When it is wrong ----------

  /** How many inputs entry k should stand for before the step (j, at). */
  function Share(k: nat, j: nat, at: nat, len: nat): real {
    (End(k, j, at, len) - k) as real
  }

  /** Every entry still to be read holds at least its share of ones in slot 0. */
  ghost predicate Ample<T>(refs: seq<T>, s: map<T, Slots>, j: nat, at: nat, n: nat) {
    && Stored(refs, s, n) && n > 0
    && forall k :: 0 <= k < |refs| && Unread(k, j, at) ==> s[refs[k]][0] >= Share(k, j, at, |refs|)
  }

  /** Entry k is still to be read and holds more than its share. */
  ghost predicate Surplus<T>(refs: seq<T>, s: map<T, Slots>, j: nat, at: nat, k: nat) {
    && k < |refs| && Unread(k, j, at) && refs[k] in s && |s[refs[k]]| > 0
    && s[refs[k]][0] > Share(k, j, at, |refs|)
  }

  /** What a step does to the slot 0 of every entry. */
  lemma StepGrows<T>(refs: seq<T>, s: map<T, Slots>, j: nat, i: nat, n: nat, k: nat)
    requires Stored(refs, s, n) && n > 0 && i + j < |refs| && j > 0 && k < |refs|
    ensures AddStep(refs, s, j, i)[refs[k]][0]
         == s[refs[k]][0] + if refs[k] == refs[i] then s[refs[i + j]][0] else 0.0
  {}

  lemma ShareJoins(j: nat, i: nat, len: nat)
    requires Turn(j, i) && i + j < len
    ensures Share(i, j, i + 2 * j, len) == Share(i, j, i, len) + Share(i + j, j, i, len)
    ensures Share(i + j, j, i, len) > 0.0
  {
    StepReads(i, j, i, len);
    TurnNext(j, i);
  }

  /** With an object at two entries a step adds to both, so no entry ever falls short, and a surplus stays. */
  lemma StepKeepsAmple<T>(refs: seq<T>, s: map<T, Slots>, j: nat, i: nat, n: nat)
    requires Turn(j, i) && i < |refs| && j > 0 && Ample(refs, s, j, i, n)
    ensures Ample(refs, AddStep(refs, s, j, i), j, i + 2 * j, n)
  {
    hide Turn, Unread, End, Share, AddStep;
    var t, len := AddStep(refs, s, j, i), |refs|;
    StepKeepsStored(refs, s, j, i, n);
    forall k | 0 <= k < len && Unread(k, j, i + 2 * j)
      ensures t[refs[k]][0] >= Share(k, j, i + 2 * j, len)
    {
      StepReads(k, j, i, len);
      StepShare(refs, s, j, i, n, k);
    }
  }

  lemma StepShare<T>(refs: seq<T>, s: map<T, Slots>, j: nat, i: nat, n: nat, k: nat)
    requires Turn(j, i) && i < |refs| && j > 0 && Ample(refs, s, j, i, n)
    requires k < |refs| && Unread(k, j, i + 2 * j) && Unread(k, j, i)
    ensures Stored(refs, AddStep(refs, s, j, i), n)
    ensures AddStep(refs, s, j, i)[refs[k]][0] - Share(k, j, i + 2 * j, |refs|)
         >= s[refs[k]][0] - Share(k, j, i, |refs|)
    ensures k == i && i + j < |refs| ==>
      AddStep(refs, s, j, i)[refs[i]][0] - Share(i, j, i + 2 * j, |refs|)
      >= s[refs[i + j]][0] - Share(i + j, j, i, |refs|)
  {
    hide Turn, Unread, End, Share, AddStep;
    var len := |refs|;
    StepKeepsStored(refs, s, j, i, n);
    StepReads(k, j, i, len);
    if i + j < len {
      StepGrows(refs, s, j, i, n, k);
      ShareJoins(j, i, len);
      StepReads(i, j, i, len);
      if k != i {
        SameShare(k, j, i, len);
      }
    } else {
      LastStep(refs, s, j, i);
      ShareAtLast(k, j, i, len);
    }
  }

  lemma LastStep<T>(refs: seq<T>, s: map<T, Slots>, j: nat, i: nat)
    requires i < |refs| <= i + j && j > 0 && forall k :: 0 <= k < |refs| ==> refs[k] in s
    ensures AddStep(refs, s, j, i) == s
  {}

  lemma SameShare(k: nat, j: nat, i: nat, len: nat)
    requires Turn(j, i) && i < len && Unread(k, j, i + 2 * j) && k != i
    ensures Share(k, j, i + 2 * j, len) == Share(k, j, i, len)
  {
    StepReads(k, j, i, len);
  }

  lemma ShareAtLast(k: nat, j: nat, i: nat, len: nat)
    requires Turn(j, i) && i < len <= i + j && Unread(k, j, i + 2 * j)
    ensures Share(k, j, i + 2 * j, len) == Share(k, j, i, len)
  {
    if k != i {
      SameShare(k, j, i, len);
    }
  }

  lemma StepKeepsSurplus<T>(refs: seq<T>, s: map<T, Slots>, j: nat, i: nat, n: nat, k: nat) returns (m: nat)
    requires Turn(j, i) && i < |refs| && j > 0 && Ample(refs, s, j, i, n) && Surplus(refs, s, j, i, k)
    ensures Surplus(refs, AddStep(refs, s, j, i), j, i + 2 * j, m)
  {
    hide Turn, Unread, End, Share, AddStep;
    StepReads(k, j, i, |refs|);
    m := if k == i + j then i else k;
    if k == i + j {
      StepShare(refs, s, j, i, n, i);
    } else {
      StaysUnread(k, j, i);
      StepShare(refs, s, j, i, n, k);
    }
  }

  lemma StaysUnread(k: nat, j: nat, i: nat)
    requires Turn(j, i) && Unread(k, j, i) && k != i + j
    ensures Unread(k, j, i + 2 * j)
  {
    TurnNext(j, i);
    if i < k < i + 2 * j && Aligned(k, j) {
      AlignedWeaken(i, 2 * j, j);
      AlignedSub(k, i, j);
      BetweenMultiples(k - i, j);
    }
  }

  lemma BetweenMultiples(d: nat, j: nat)
    requires IsPow2(j) && Aligned(d, j) && 0 < d < 2 * j
    ensures d == j
  {
    AlignedIffLowBit(d, j);
    LowBitSpec(d);
    if d != j {
      AlignedSelf(j);
      AlignedSub(d, j, j);
    }
  }

  lemma {:induction false} RoundKeepsSurplus<T>(refs: seq<T>, s: map<T, Slots>, j: nat, i: nat, n: nat, k: nat)
    returns (m: nat)
    requires Turn(j, i) && j > 0 && Ample(refs, s, j, i, n) && Surplus(refs, s, j, i, k)
    ensures Ample(refs, AddRound(refs, s, j, i), 2 * j, 0, n) && Surplus(refs, AddRound(refs, s, j, i), 2 * j, 0, m)
    decreases |refs| - i
  {
    hide Turn, Unread, End, Share, AddStep;
    if i >= |refs| {
      m := k;
      forall q | 0 <= q < |refs|
        ensures Unread(q, 2 * j, 0) ==> Unread(q, j, i) && Share(q, 2 * j, 0, |refs|) == Share(q, j, i, |refs|)
      {
        RoundShare(q, j, i, |refs|);
      }
      StartsUnread(k, j, i, |refs|);
    } else {
      TurnNext(j, i);
      StepKeepsAmple(refs, s, j, i, n);
      var q := StepKeepsSurplus(refs, s, j, i, n, k);
      m := RoundKeepsSurplus(refs, AddStep(refs, s, j, i), j, i + 2 * j, n, q);
    }
  }

  lemma RoundShare(q: nat, j: nat, i: nat, len: nat)
    requires Turn(j, i) && i >= len && q < len
    ensures Unread(q, 2 * j, 0) ==> Unread(q, j, i) && Share(q, 2 * j, 0, len) == Share(q, j, i, len)
  {
    RoundReads(q, j, i, len);
  }

  lemma StartsUnread(k: nat, j: nat, at: nat, len: nat)
    requires Unread(k, j, at) && k < len <= at
    ensures Unread(k, 2 * j, 0)
  {}

  lemma {:induction false} RoundsKeepSurplus<T>(refs: seq<T>, s: map<T, Slots>, j: nat, n: nat, k: nat)
    requires Turn(j, 0) && j > 0 && Ample(refs, s, j, 0, n) && Surplus(refs, s, j, 0, k)
    ensures Stored(refs, AddRounds(refs, s, j), n) && refs != []
    ensures AddRounds(refs, s, j)[refs[0]][0] > |refs| as real
    decreases |refs| - j
  {
    hide Turn, Unread, AddRound;
    if j >= |refs| {
      LastReads(k, j, |refs|);
    } else {
      var m := RoundKeepsSurplus(refs, s, j, 0, n, k);
      TurnNext(j, 0);
      RoundsKeepSurplus(refs, AddRound(refs, s, j, 0), j * 2, n, m);
    }
  }

  /** In the first round, an object at p and q has a surplus at q as soon as entry p was added to. */
  lemma SurplusAt<T>(refs: seq<T>, s: map<T, Slots>, p: nat, q: nat, n: nat)
    requires Ample(refs, s, 1, p, n) && Turn(1, p) && q < |refs| && p + 1 < q && refs[p] == refs[q]
    ensures Surplus(refs, AddStep(refs, s, 1, p), 1, p + 2, q)
  {
    hide AddStep;
    StepReads(q, 1, p, |refs|);
    StepKeepsStored(refs, s, 1, p, n);
    StepGrows(refs, s, 1, p, n, q);
    assert s[refs[p]][0] >= Share(p, 1, p, |refs|) == 1.0;
    assert s[refs[p + 1]][0] >= Share(p + 1, 1, p, |refs|) == 1.0;
  }

  lemma {:induction false} FirstRoundWrong<T>(refs: seq<T>, s: map<T, Slots>, i: nat, p: nat, q: nat, n: nat)
    returns (m: nat)
    requires Turn(1, i) && Ample(refs, s, 1, i, n) && i <= p && p % 2 == 0 && p + 1 < q < |refs| && refs[p] == refs[q]
    ensures Ample(refs, AddRound(refs, s, 1, i), 2, 0, n) && Surplus(refs, AddRound(refs, s, 1, i), 2, 0, m)
    decreases p - i
  {
    hide Unread, End, Share, AddStep;
    TurnNext(1, i);
    StepKeepsAmple(refs, s, 1, i, n);
    var t := AddStep(refs, s, 1, i);
    if i == p {
      SurplusAt(refs, s, p, q, n);
      m := RoundKeepsSurplus(refs, t, 1, i + 2, n, q);
    } else {
      m := FirstRoundWrong(refs, t, i + 2, p, q, n);
    }
  }

  /** Ones everywhere. */
  ghost function Ones<T>(refs: seq<T>, n: nat): (s: map<T, Slots>)
    ensures Stored(refs, s, n)
  {
    map r | r in refs :: seq(n, _ => 1.0)
  }

  lemma OnesAmple<T>(refs: seq<T>, n: nat)
    requires n > 0
    ensures Turn(1, 0) && Ample(refs, Ones(refs, n), 1, 0, n)
  {
    AlignedSelf(2);
  }

  lemma {:induction false} OnesTotal<T>(refs: seq<T>, n: nat, hi: nat)
    requires n > 0 && hi <= |refs|
    ensures Total(Inputs(refs, Ones(refs, n)), 0, hi, 0) == hi as real
  {
    if hi > 0 {
      OnesTotal(refs, n, hi - 1);
    }
  }

  /** If sharing does harm, entry 0 is not the sum of ones. */
  lemma HarmfulIsWrong<T>(refs: seq<T>, n: nat)
    requires n > 0 && !Harmless(refs)
    ensures refs != [] && !Sums(Inputs(refs, Ones(refs, n)), AddRounds(refs, Ones(refs, n), 1)[refs[0]], 0, |refs|, n)
  {
    hide Turn, Unread, Ample, Surplus, AddRound, Ones;
    var p, q :| 0 <= p < q < |refs| && refs[p] == refs[q] && p % 2 == 0 && q != p + 1;
    var s := Ones(refs, n);
    OnesAmple(refs, n);
    var m := FirstRoundWrong(refs, s, 0, p, q, n);
    TurnNext(1, 0);
    RoundsKeepSurplus(refs, AddRound(refs, s, 1, 0), 2, n, m);
    OnesTotal(refs, n, |refs|);
  }

  /** For all inputs at once: the total is right if and only if sharing is harmless, which only looks at the objects. */
  lemma InPlaceSumIff<T(!new)>(refs: seq<T>, n: nat)
    requires refs != [] && n > 0
    ensures Harmless(refs) <==> forall s: map<T, Slots> :: Stored(refs, s, n) ==>
      Sums(Inputs(refs, s), AddRounds(refs, s, 1)[refs[0]], 0, |refs|, n)
  {
    hide Sums, Harmless, AddRounds;
    if Harmless(refs) {
      forall s: map<T, Slots> | Stored(refs, s, n)
        ensures Sums(Inputs(refs, s), AddRounds(refs, s, 1)[refs[0]], 0, |refs|, n)
      {
        HarmlessIsSum(refs, s, n);
      }
    } else {
      HarmfulIsWrong(refs, n);
      assert Stored(refs, Ones(refs, n), n);
    }
  }

  /** A failing vector, with one object at entries 0 and 2: ones give four instead of three. */
  lemma SharedObjectGoesWrong<T>(a: T, b: T)
    requires a != b
    ensures !Harmless([a, b, a])
    ensures AddRounds([a, b, a], Ones([a, b, a], 1), 1)[a] == [4.0]
    ensures Total(Inputs([a, b, a], Ones([a, b, a], 1)), 0, 3, 0) == 3.0
  {
    var refs := [a, b, a];
    var s := Ones(refs, 1);
    assert refs[0] == refs[2];
    var t := AddStep(refs, s, 1, 0);
    assert t[a] == [2.0] && AddStep(refs, t, 1, 2) == t;
    assert AddRound(refs, t, 1, 4) == t;
    assert AddRound(refs, t, 1, 2) == t;
    assert AddRound(refs, s, 1, 0) == t;
    var u := AddStep(refs, t, 2, 0);
    assert u[a] == [4.0];
    assert AddRound(refs, t, 2, 0) == u;
    assert AddRounds(refs, u, 4) == u;
    OnesTotal(refs, 1, 3);
  }

  // ---------- The blocks of all entries ----------

  ghost predicate Distinct<T>(refs: seq<T>) {
    forall i, j :: 0 <= i < j < |refs| ==> refs[i] != refs[j]
  }

  /** The end of the block that entry i stands for after the rounds below j: its lowest digit, at most j. */
  function Block(i: nat, j: nat, len: nat): nat
    requires i < len
  {
    var size := if i == 0 then j else if LowBit(i) < j then LowBit(i) else j;
    if i + size < len then i + size else len
  }

  /** How the blocks grow in the round of j: entries at multiples of 2j take the next block. */
  lemma BlockGrows(i: nat, j: nat, len: nat)
    requires i < len && IsPow2(j)
    ensures Aligned(i, 2 * j) ==>
      && (i + j < len ==> Block(i, j, len) == i + j && Block(i + j, j, len) == Block(i, 2 * j, len))
      && (i + j >= len ==> Block(i, j, len) == Block(i, 2 * j, len))
    ensures !Aligned(i, 2 * j) ==> Block(i, j, len) == Block(i, 2 * j, len)
  {
    Pow2Double(j);
    if i > 0 {
      AlignedIffLowBit(i, 2 * j);
      LowBitSpec(i);
      if Aligned(i, 2 * j) {
        LowBitOfSum(i, j);
      } else if j < LowBit(i) {
        Pow2Gap(j, LowBit(i));
      }
    } else {
      AlignedSelf(2 * j);
      LowBitOfSum(0, j);
    }
  }

  /** Entry k before the step (j, at), as the sum of its block. */
  ghost predicate Blocks<T>(refs: seq<T>, s: map<T, Slots>, xs: seq<Slots>, j: nat, at: nat, n: nat) {
    && Stored(refs, s, n) && |xs| == |refs| && SameSize(xs, n)
    && forall k :: 0 <= k < |refs| ==> Sums(xs, s[refs[k]], k, Block(k, if k < at then 2 * j else j, |refs|), n)
  }

  lemma StepKeepsBlocks<T>(refs: seq<T>, s: map<T, Slots>, xs: seq<Slots>, j: nat, i: nat, n: nat)
    requires Distinct(refs) && Turn(j, i) && i < |refs| && j > 0 && Blocks(refs, s, xs, j, i, n)
    ensures Blocks(refs, AddStep(refs, s, j, i), xs, j, i + 2 * j, n)
  {
    hide Sums, Block, AddSlots;
    var t, len := AddStep(refs, s, j, i), |refs|;
    StepKeepsStored(refs, s, j, i, n);
    forall k | 0 <= k < len
      ensures Sums(xs, t[refs[k]], k, Block(k, if k < i + 2 * j then 2 * j else j, len), n)
    {
      BlockGrows(k, j, len);
      if k == i && i + j < len {
        BlockInside(i, j, len);
        JoinBlocks(xs, s[refs[i]], s[refs[i + j]], i, i + j, Block(i, 2 * j, len), n);
      } else if i < k < i + 2 * j {
        NotAlignedBetween(i, k, j);
      }
    }
  }

  lemma BlockInside(i: nat, j: nat, len: nat)
    requires i + j < len && j > 0
    ensures Block(i + j, j, len) >= i + j
    ensures Block(i, 2 * j, len) >= i
  {
    LowBitSpec(i + j);
    if i > 0 {
      LowBitSpec(i);
    }
  }

  lemma {:induction false} RoundKeepsBlocks<T>(refs: seq<T>, s: map<T, Slots>, xs: seq<Slots>, j: nat, i: nat, n: nat)
    requires Distinct(refs) && Turn(j, i) && j > 0 && Blocks(refs, s, xs, j, i, n)
    ensures Blocks(refs, AddRound(refs, s, j, i), xs, 2 * j, 0, n)
    decreases |refs| - i
  {
    hide Sums, Block, AddStep, Turn;
    if i < |refs| {
      TurnNext(j, i);
      StepKeepsBlocks(refs, s, xs, j, i, n);
      RoundKeepsBlocks(refs, AddStep(refs, s, j, i), xs, j, i + 2 * j, n);
    }
  }

  lemma {:induction false} RoundsKeepBlocks<T>(refs: seq<T>, s: map<T, Slots>, xs: seq<Slots>, j: nat, n: nat)
    returns (last: nat)
    requires Distinct(refs) && Turn(j, 0) && j > 0 && Blocks(refs, s, xs, j, 0, n)
    ensures last >= |refs| && Blocks(refs, AddRounds(refs, s, j), xs, last, 0, n)
    decreases |refs| - j
  {
    hide Sums, Block, AddRound, Turn;
    last := j;
    if j < |refs| {
      RoundKeepsBlocks(refs, s, xs, j, 0, n);
      TurnNext(j, 0);
      last := RoundsKeepBlocks(refs, AddRound(refs, s, j, 0), xs, j * 2, n);
    }
  }

  lemma StartsInBlocks<T>(refs: seq<T>, s: map<T, Slots>, n: nat)
    requires Stored(refs, s, n)
    ensures Blocks(refs, s, Inputs(refs, s), 1, 0, n)
  {
    hide Sums;
    StartsExact(refs, s, n);
    forall k | 0 <= k < |refs|
      ensures Block(k, 1, |refs|) == End(k, 1, 0, |refs|) && Unread(k, 1, 0)
    {
      if k > 0 {
        LowBitSpec(k);
      }
    }
  }

  /** With distinct objects every entry, not only the first, ends with the sum of the block of its lowest digit. */
  lemma DistinctBlocks<T>(refs: seq<T>, s: map<T, Slots>, n: nat, i: nat)
    requires Distinct(refs) && Stored(refs, s, n) && 0 < i < |refs|
    ensures Sums(Inputs(refs, s), AddRounds(refs, s, 1)[refs[i]], i,
                 if i + LowBit(i) < |refs| then i + LowBit(i) else |refs|, n)
  {
    hide Sums, AddRounds;
    StartsInBlocks(refs, s, n);
    StartsExact(refs, s, n);
    var last := RoundsKeepBlocks(refs, s, Inputs(refs, s), 1, n);
    LowBitSpec(i);
    assert Block(i, last, |refs|) == if i + LowBit(i) < |refs| then i + LowBit(i) else |refs|;
  }

  // ---------- The method ----------

  ghost function Values(cts: seq<Ciphertext>): (s: map<Ciphertext, Slots>)
    reads cts
    ensures forall k :: 0 <= k < |cts| ==> cts[k] in s
  {
    map c | c in cts :: c.value
  }

  /**
   EvalAddManyInPlace on the device, for any vector of ciphertext objects: the loops of AddRounds,
   so that entry 0 ends as the sum whenever sharing is harmless.
   */
  method EvalAddManyInPlace(cts: seq<Ciphertext>) returns (r: Outcome<()>)
    modifies cts
    ensures r.WrongInputCount? <==> cts == []
    ensures Values(cts) == AddRounds(cts, old(Values(cts)), 1)
    ensures forall n: nat :: cts != [] && Harmless(cts) && Stored(cts, old(Values(cts)), n) ==>
      Sums(Inputs(cts, old(Values(cts))), cts[0].value, 0, |cts|, n)
  {
    hide AddStep, AddRound, Harmless, Sums, Stored;
    if cts == [] {
      return WrongInputCount;
    }
    var j: nat := 1;
    while j < |cts|
      invariant j > 0 && AddRounds(cts, Values(cts), j) == AddRounds(cts, old(Values(cts)), 1)
      decreases |cts| - j
    {
      RunRound(cts, j);
      j := j * 2;
    }
    forall n: nat | Harmless(cts) && Stored(cts, old(Values(cts)), n)
      ensures Sums(Inputs(cts, old(Values(cts))), cts[0].value, 0, |cts|, n)
    {
      HarmlessIsSum(cts, old(Values(cts)), n);
    }
    r := Ok(());
  }

  /** The inner loop. */
  method RunRound(cts: seq<Ciphertext>, j: nat)
    requires j > 0
    modifies cts
    ensures Values(cts) == AddRound(cts, old(Values(cts)), j, 0)
  {
    hide AddSlots;
    var i := 0;
    while i < |cts|
      invariant AddRound(cts, Values(cts), j, i) == AddRound(cts, old(Values(cts)), j, 0)
      decreases |cts| - i
    {
      ghost var s := Values(cts);
      if i + j < |cts| {
        cts[i].value := AddSlots(cts[i].value, cts[i + j].value);
      }
      assert Values(cts) == AddStep(cts, s, j, i);
      i := i + 2 * j;
    }
  }
}
