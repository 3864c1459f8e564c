/**
 resources.py: a resource with finite capacity and a heap of finish times. The heap is
 kept as an ascending sequence; only its least element and its size are ever observed.
 */
module Resources {
  import opened Wrappers

  datatype ResourceName =
    | CpuCrypto | SwiotlbCopy | PcieH2D | PcieD2H | GpuCryptoH2D | GpuCryptoD2H | GpuCompute

  const ALL_RESOURCES: seq<ResourceName> :=
    [CpuCrypto, SwiotlbCopy, PcieH2D, PcieD2H, GpuCryptoH2D, GpuCryptoD2H, GpuCompute]

  function Max(a: real, b: real): real {
    if a < b then b else a
  }

  // ---------- Heaps of finish times ----------

  ghost predicate Ascending(f: seq<real>) {
    forall i, j :: 0 <= i < j < |f| ==> f[i] <= f[j]
  }

  /** heappush */
  function Push(f: seq<real>, x: real): seq<real> {
    if f == [] || x <= f[0] then [x] + f else [f[0]] + Push(f[1..], x)
  }

  /** How many finish times lie after t. */
  function CountAbove(f: seq<real>, t: real): nat {
    if f == [] then 0 else (if f[0] > t then 1 else 0) + CountAbove(f[1..], t)
  }

  function Sum(f: seq<real>): real {
    if f == [] then 0.0 else f[0] + Sum(f[1..])
  }

  lemma {:induction false} PushElements(f: seq<real>, x: real)
    ensures |Push(f, x)| == |f| + 1 && multiset(Push(f, x)) == multiset(f) + multiset{x}
  {
    if f == [] || x <= f[0] {
    } else {
      PushElements(f[1..], x);
      assert f == [f[0]] + f[1..];
    }
  }

  lemma {:induction false} PushAscending(f: seq<real>, x: real)
    requires Ascending(f)
    ensures Ascending(Push(f, x)) && Push(f, x)[0] == if f == [] || x <= f[0] then x else f[0]
  {
    if f == [] || x <= f[0] {
    } else {
      var r := Push(f[1..], x);
      PushAscending(f[1..], x);
      AscendingHead(f[0], r);
    }
  }

  lemma AscendingHead(x: real, r: seq<real>)
    requires Ascending(r) && (r == [] || x <= r[0])
    ensures Ascending([x] + r)
  {}

  /** Push adds one element to the sum and to every count. */
  lemma {:induction false} PushCounts(f: seq<real>, x: real, t: real)
    ensures Sum(Push(f, x)) == Sum(f) + x
    ensures CountAbove(Push(f, x), t) == CountAbove(f, t) + if x > t then 1 else 0
  {
    if f == [] || x <= f[0] {
      assert Push(f, x)[1..] == f;
    } else {
      PushCounts(f[1..], x, t);
      assert Push(f, x)[1..] == Push(f[1..], x);
    }
  }

  lemma {:induction false} CountAboveBounds(f: seq<real>, t: real)
    requires Ascending(f)
    ensures CountAbove(f, t) <= |f|
    ensures f != [] ==> (CountAbove(f, t) == |f| <==> f[0] > t)
  {
    if f != [] {
      CountAboveBounds(f[1..], t);
    }
  }

  /** A bound on every finish time bounds their sum. */
  lemma {:induction false} SumBound(f: seq<real>, e: real, n: nat)
    requires e >= 0.0 && |f| <= n && forall i :: 0 <= i < |f| ==> f[i] <= e
    ensures Sum(f) <= n as real * e
  {
    if f != [] {
      SumBound(f[1..], e, n - 1);
      assert n as real * e == (n - 1) as real * e + e;
    } else {
      NonNegativeProduct(n as real, e);
    }
  }

  lemma NonNegativeProduct(a: real, b: real)
    requires a >= 0.0 && b >= 0.0
    ensures a * b >= 0.0
  {}

  // ---------- Starting and finishing a stage ----------

  /** When a stage that is ready at now can start. */
  function StartTime(capacity: nat, f: seq<real>, now: real): real
    requires capacity >= 1
  {
    if |f| < capacity then now else Max(now, f[0])
  }

  /** The finish times after that stage. */
  function After(capacity: nat, f: seq<real>, finish: real): seq<real>
    requires capacity >= 1
  {
    Push(if |f| < capacity then f else f[1..], finish)
  }

  /** The finish times of a resource in use. */
  ghost predicate Fits(capacity: nat, f: seq<real>) {
    capacity >= 1 && Ascending(f) && |f| <= capacity && forall i :: 0 <= i < |f| ==> f[i] >= 0.0
  }

  lemma AfterFits(capacity: nat, f: seq<real>, now: real, finish: real)
    requires Fits(capacity, f) && 0.0 <= now && StartTime(capacity, f, now) <= finish
    ensures Fits(capacity, After(capacity, f, finish))
    ensures Sum(After(capacity, f, finish)) >= Sum(f) + (finish - StartTime(capacity, f, now))
    ensures forall x :: x in After(capacity, f, finish) ==> x == finish || x in f
  {
    hide Push;
    var g := if |f| < capacity then f else f[1..];
    PushAscending(g, finish);
    PushElements(g, finish);
    PushCounts(g, finish, 0.0);
    var r := After(capacity, f, finish);
    forall x | x in r
      ensures x == finish || x in f
    {
      assert x in multiset(r);
      assert x == finish || x in multiset(g);
    }
  }

  /** The whole resource in one number per instant: how many finish times lie after t, cut off at the capacity. */
  lemma CountAfter(capacity: nat, f: seq<real>, now: real, finish: real, t: real)
    requires Fits(capacity, f) && StartTime(capacity, f, now) <= finish
    ensures CountAbove(After(capacity, f, finish), t)
         == var c := CountAbove(f, t) + (if finish > t then 1 else 0); if c > capacity then capacity else c
  {
    CountAboveBounds(f, t);
    PushCounts(if |f| < capacity then f else f[1..], finish, t);
  }

  /** A stage starts after t exactly when it is not ready by t or all of the capacity is taken beyond t. */
  lemma StartsAfter(capacity: nat, f: seq<real>, now: real, t: real)
    requires Fits(capacity, f)
    ensures StartTime(capacity, f, now) > t <==> now > t || CountAbove(f, t) == capacity
  {
    CountAboveBounds(f, t);
  }

  // ---------- The class ----------

  class Resource {
    const capacity: nat
    var busyUs: real
    var inflight: seq<real>

    constructor (capacity: nat)
      ensures this.capacity == capacity && busyUs == 0.0 && inflight == []
    {
      this.capacity := capacity;
      busyUs := 0.0;
      inflight := [];
    }

    /** acquire: takes a free unit, or the one that becomes free first. */
    method Acquire(now: real) returns (start: real)
      requires capacity >= 1
      modifies this`inflight
      ensures start == StartTime(capacity, old(inflight), now)
      ensures inflight == if |old(inflight)| < capacity then old(inflight) else old(inflight)[1..]
    {
      if |inflight| < capacity {
        return now;
      }
      var earliest := inflight[0];
      inflight := inflight[1..];
      start := Max(now, earliest);
    }

    /** release: the unit is taken until finish, and the time is accounted if the start is given. */
    method Release(finish: real, start: Option<real>)
      modifies this
      ensures inflight == Push(old(inflight), finish)
      ensures start.None? ==> busyUs == old(busyUs)
      ensures start.Some? ==> busyUs == old(busyUs) + Max(0.0, finish - start.value)
    {
      inflight := Push(inflight, finish);
      if start.Some? {
        busyUs := busyUs + Max(0.0, finish - start.value);
      }
    }
  }
}
