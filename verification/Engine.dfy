/**
 engine.py: the simulation of a trace, proved to build the schedule of Schedule and to
 report its times.
 */
module Engine {
  import opened Resources
  import opened Pipeline
  import opened Schedule
  import opened Wrappers
  import Eager

  // ---------- Ordering the events ----------

  /** The sort key: original start, then identifier. */
  predicate KeyLess(a: Event, b: Event) {
    a.origStart < b.origStart || (a.origStart == b.origStart && a.id < b.id)
  }

  function InsertEvent(es: seq<Event>, e: Event): seq<Event> {
    if es == [] || KeyLess(e, es[0]) then [e] + es else [es[0]] + InsertEvent(es[1..], e)
  }

  /** sorted(trace.events, key=...): stable, as each event goes behind those with the same key. */
  function SortEvents(es: seq<Event>): seq<Event> {
    if es == [] then [] else InsertEvent(SortEvents(es[..|es| - 1]), es[|es| - 1])
  }

  ghost predicate Ordered(es: seq<Event>) {
    forall i, j :: 0 <= i < j < |es| ==> !KeyLess(es[j], es[i])
  }

  /** The events with a given key, in order. */
  function SameKey(es: seq<Event>, start: real, id: int): seq<Event> {
    if es == [] then []
    else (if es[0].origStart == start && es[0].id == id then [es[0]] else []) + SameKey(es[1..], start, id)
  }

  lemma {:induction false} InsertEventOrdered(es: seq<Event>, e: Event)
    requires Ordered(es)
    ensures Ordered(InsertEvent(es, e)) && |InsertEvent(es, e)| == |es| + 1
    ensures InsertEvent(es, e)[0] == if es == [] || KeyLess(e, es[0]) then e else es[0]
  {
    if es == [] || KeyLess(e, es[0]) {
      OrderedHead(e, es);
    } else {
      InsertEventOrdered(es[1..], e);
      OrderedHead(es[0], InsertEvent(es[1..], e));
    }
  }

  lemma OrderedHead(e: Event, r: seq<Event>)
    requires Ordered(r) && (r == [] || !KeyLess(r[0], e))
    ensures Ordered([e] + r)
  {
    forall j | 0 <= j < |r|
      ensures !KeyLess(r[j], e)
    {
      assert j > 0 ==> !KeyLess(r[j], r[0]);
    }
  }

  /** Insertion goes behind all events with the same key, so it keeps arrival order among them. */
  lemma {:induction false} InsertEventStable(es: seq<Event>, e: Event, start: real, id: int)
    requires Ordered(es)
    ensures SameKey(InsertEvent(es, e), start, id)
         == SameKey(es, start, id) + (if e.origStart == start && e.id == id then [e] else [])
  {
    if es == [] {
      assert InsertEvent(es, e)[1..] == [];
    } else if KeyLess(e, es[0]) {
      assert InsertEvent(es, e)[1..] == es;
      if e.origStart == start && e.id == id {
        NoneBelow(es, start, id);
      }
    } else {
      InsertEventStable(es[1..], e, start, id);
      assert InsertEvent(es, e)[1..] == InsertEvent(es[1..], e);
    }
  }

  lemma {:induction false} NoneBelow(es: seq<Event>, start: real, id: int)
    requires Ordered(es)
    requires es != [] && (start < es[0].origStart || (start == es[0].origStart && id < es[0].id))
    ensures SameKey(es, start, id) == []
  {
    if |es| > 1 {
      assert !KeyLess(es[1], es[0]);
      NoneBelow(es[1..], start, id);
    }
  }

  /** The sort is a sort: ordered, the same events, and stable. */
  lemma {:induction false} SortEventsSpec(es: seq<Event>)
    ensures Ordered(SortEvents(es)) && |SortEvents(es)| == |es|
    ensures forall start: real, id: int ::
      SameKey(SortEvents(es), start, id) == SameKey(es, start, id)
    ensures forall e :: e in SortEvents(es) <==> e in es
  {
    if es != [] {
      var n := |es| - 1;
      SortEventsSpec(es[..n]);
      InsertEventOrdered(SortEvents(es[..n]), es[n]);
      InsertEventMembers(SortEvents(es[..n]), es[n]);
      assert es == es[..n] + [es[n]];
      forall start: real, id: int
        ensures SameKey(SortEvents(es), start, id) == SameKey(es, start, id)
      {
        InsertEventStable(SortEvents(es[..n]), es[n], start, id);
        SameKeyAppend(es[..n], es[n], start, id);
      }
    }
  }

  lemma {:induction false} InsertEventMembers(es: seq<Event>, e: Event)
    ensures forall x :: x in InsertEvent(es, e) <==> x == e || x in es
  {
    if es == [] || KeyLess(e, es[0]) {
    } else {
      InsertEventMembers(es[1..], e);
      assert es == [es[0]] + es[1..];
    }
  }

  lemma {:induction false} SameKeyAppend(es: seq<Event>, e: Event, start: real, id: int)
    ensures SameKey(es + [e], start, id)
         == SameKey(es, start, id) + (if e.origStart == start && e.id == id then [e] else [])
  {
    if es == [] {
      assert ([] + [e])[1..] == [];
    } else {
      SameKeyAppend(es[1..], e, start, id);
      assert (es + [e])[1..] == es[1..] + [e];
    }
  }

  // ---------- From events to jobs ----------

  predicate Known(es: seq<Event>) {
    forall i :: 0 <= i < |es| ==> es[i].kind != UnknownType
  }

  function JobOf(e: Event, p: Params, mode: SecMode): Job
    requires p.Valid() && e.kind != UnknownType
  {
    Job(e.stream, Expand(e, p, mode).value)
  }

  function JobsOf(es: seq<Event>, p: Params, mode: SecMode): (jobs: seq<Job>)
    requires p.Valid() && Known(es)
    ensures |jobs| == |es|
  {
    seq(|es|, i requires 0 <= i < |es| => JobOf(es[i], p, mode))
  }

  ghost predicate GpuTimesOk(es: seq<Event>) {
    forall i :: 0 <= i < |es| ==> es[i].gpuTime >= 0.0
  }

  lemma JobsRunnable(es: seq<Event>, p: Params, mode: SecMode, caps: Caps)
    requires p.Valid() && Known(es) && GpuTimesOk(es) && CapsOk(caps)
    ensures Runnable(caps, JobsOf(es, p, mode))
  {
    hide Expand;
    forall i | 0 <= i < |es|
      ensures NonNegative(JobsOf(es, p, mode)[i].stages)
    {
      ExpandNonNegative(es[i], p, mode);
    }
  }

  /** No stage of any of the events costs more in the first mode. */
  ghost predicate Cheaper(es: seq<Event>, p: Params, mode: SecMode, mode': SecMode)
    requires p.Valid()
  {
    forall i, dir :: 0 <= i < |es| ==> CostsNoMore(p, mode, mode', es[i].sizeBytes, dir)
  }

  ghost predicate CostsNoMore(p: Params, mode: SecMode, mode': SecMode, n: nat, dir: Direction)
    requires p.Valid()
  {
    && CpuCryptoUs(p, mode, n) <= CpuCryptoUs(p, mode', n)
    && SwiotlbUs(p, mode, n, dir) <= SwiotlbUs(p, mode', n, dir)
    && GpuCryptoUs(p, mode, n, dir) <= GpuCryptoUs(p, mode', n, dir)
  }

  lemma ExpandNoSlower(e: Event, p: Params, mode: SecMode, mode': SecMode)
    requires p.Valid() && e.kind != UnknownType
    requires forall dir :: CostsNoMore(p, mode, mode', e.sizeBytes, dir)
    ensures NoSlower(Expand(e, p, mode).value, Expand(e, p, mode').value)
  {
    hide CpuCryptoUs, SwiotlbUs, PcieUs, GpuCryptoUs;
    assert CostsNoMore(p, mode, mode', e.sizeBytes, H2D) && CostsNoMore(p, mode, mode', e.sizeBytes, D2H);
  }

  /** The events with some streams joined. */
  function Joined(es: seq<Event>, g: int -> int): (r: seq<Event>)
    ensures |r| == |es|
  {
    seq(|es|, i requires 0 <= i < |es| => es[i].(stream := g(es[i].stream)))
  }

  lemma JobsNoSlower(es: seq<Event>, p: Params, mode: SecMode, mode': SecMode, g: int -> int)
    requires p.Valid() && Known(es) && Cheaper(es, p, mode, mode')
    ensures Known(Joined(es, g))
    ensures NoSlowerJobs(JobsOf(es, p, mode), JobsOf(Joined(es, g), p, mode'), g)
  {
    hide Expand, CostsNoMore;
    var joined := Joined(es, g);
    assert forall i :: 0 <= i < |es| ==> joined[i] == es[i].(stream := g(es[i].stream));
    forall i | 0 <= i < |es|
      ensures NoSlower(JobsOf(es, p, mode)[i].stages, JobsOf(joined, p, mode')[i].stages)
    {
      ExpandNoSlower(es[i], p, mode, mode');
      StreamDoesNotCost(es[i], g(es[i].stream), p, mode');
    }
  }

  lemma StreamDoesNotCost(e: Event, stream: int, p: Params, mode: SecMode)
    requires p.Valid()
    ensures Expand(e.(stream := stream), p, mode) == Expand(e, p, mode)
  {}

  /**
   In a mode that costs no more, with the same or more capacity and with streams kept apart that
   are joined in the other run, no stage of any trace starts or finishes later.
   */
  lemma CheaperIsNeverSlower(es: seq<Event>, p: Params, mode: SecMode, more: Caps, mode': SecMode, caps: Caps,
                             g: int -> int)
    requires p.Valid() && Known(es) && GpuTimesOk(es) && CapsOk(caps) && CapsOk(more) && Cheaper(es, p, mode, mode')
    requires forall r :: Cap(caps, r) <= Cap(more, r)
    ensures Known(Joined(es, g))
    ensures Earlier(RunJobs(more, JobsOf(es, p, mode)).log, RunJobs(caps, JobsOf(Joined(es, g), p, mode')).log)
    ensures RunJobs(more, JobsOf(es, p, mode)).end <= RunJobs(caps, JobsOf(Joined(es, g), p, mode')).end
  {
    hide RunJobs, JobsOf, Cheaper;
    JobsNoSlower(es, p, mode, mode', g);
    JobsRunnable(es, p, mode, more);
    JobsRunnable(Joined(es, g), p, mode', caps);
    RunMonotone(more, JobsOf(es, p, mode), caps, JobsOf(Joined(es, g), p, mode'), g);
  }

  lemma JoinedByIdentity(es: seq<Event>, g: int -> int)
    requires forall s: int :: g(s) == s
    ensures Joined(es, g) == es
  {
    forall i | 0 <= i < |es|
      ensures Joined(es, g)[i] == es[i]
    {
      assert g(es[i].stream) == es[i].stream;
    }
  }

  lemma AlwaysCheaper(es: seq<Event>, p: Params, mode: SecMode)
    requires p.Valid()
    ensures Cheaper(es, p, NoSec, mode) && Cheaper(es, p, mode, mode)
  {
    hide CpuCryptoUs, SwiotlbUs, GpuCryptoUs, PcieUs;
    forall i, dir | 0 <= i < |es|
      ensures CostsNoMore(p, NoSec, mode, es[i].sizeBytes, dir)
    {
      CostsNonNegative(p, mode, es[i].sizeBytes, dir);
    }
  }

  /** Without confidential I/O no stage of any trace starts or finishes later, with the same or more capacity. */
  lemma NoSecurityIsNeverSlower(es: seq<Event>, p: Params, mode: SecMode, caps: Caps, more: Caps)
    requires p.Valid() && Known(es) && GpuTimesOk(es) && CapsOk(caps) && CapsOk(more)
    requires forall r :: Cap(caps, r) <= Cap(more, r)
    ensures Earlier(RunJobs(more, JobsOf(es, p, NoSec)).log, RunJobs(caps, JobsOf(es, p, mode)).log)
    ensures RunJobs(more, JobsOf(es, p, NoSec)).end <= RunJobs(caps, JobsOf(es, p, mode)).end
  {
    hide RunJobs, JobsOf, Joined, Cheaper;
    AlwaysCheaper(es, p, mode);
    var same: int -> int := s => s;
    JoinedByIdentity(es, same);
    CheaperIsNeverSlower(es, p, NoSec, more, mode, caps, same);
  }

  /** Distributing the events of a trace over more streams makes no stage later. */
  lemma MoreStreamsAreNeverSlower(es: seq<Event>, p: Params, mode: SecMode, caps: Caps, g: int -> int)
    requires p.Valid() && Known(es) && GpuTimesOk(es) && CapsOk(caps)
    ensures Known(Joined(es, g))
    ensures Earlier(RunJobs(caps, JobsOf(es, p, mode)).log, RunJobs(caps, JobsOf(Joined(es, g), p, mode)).log)
    ensures RunJobs(caps, JobsOf(es, p, mode)).end <= RunJobs(caps, JobsOf(Joined(es, g), p, mode)).end
  {
    hide RunJobs, JobsOf, Joined, Cheaper;
    AlwaysCheaper(es, p, mode);
    CheaperIsNeverSlower(es, p, mode, caps, mode, caps, g);
  }

  lemma {:induction false} InsertJoined(es: seq<Event>, e: Event, g: int -> int)
    ensures InsertEvent(Joined(es, g), e.(stream := g(e.stream))) == Joined(InsertEvent(es, e), g)
  {
    var j, f := Joined(es, g), e.(stream := g(e.stream));
    if es == [] || KeyLess(e, es[0]) {
      assert InsertEvent(j, f) == [f] + j;
    } else {
      InsertJoined(es[1..], e, g);
      assert j[1..] == Joined(es[1..], g);
      assert Joined([es[0]] + InsertEvent(es[1..], e), g) == [j[0]] + Joined(InsertEvent(es[1..], e), g);
    }
  }

  /** The order of a trace does not depend on its streams, so that joining and sorting commute. */
  lemma {:induction false} SortIgnoresStreams(es: seq<Event>, g: int -> int)
    ensures SortEvents(Joined(es, g)) == Joined(SortEvents(es), g)
  {
    if es != [] {
      hide InsertEvent;
      var n := |es| - 1;
      SortIgnoresStreams(es[..n], g);
      InsertJoined(SortEvents(es[..n]), es[n], g);
      assert Joined(es, g)[..n] == Joined(es[..n], g);
    }
  }

  /** GMAC's measured parameters are at least as good as AES-GCM's at n bytes. */
  ghost predicate GmacIsBetter(p: Params, n: nat)
    requires p.Valid()
  {
    && p.gmac.fixedLatency <= p.aesGcm.fixedLatency
    && 0.0 < InterpGbps(p.aesGcm.curve, n as real) <= InterpGbps(p.gmac.curve, n as real)
    && (p.gpuGmac == p.gpuAesGcm
        || (p.gpuGmac.Some? && p.gpuAesGcm.Some? && 0.0 < p.gpuAesGcm.value <= p.gpuGmac.value))
  }

  lemma FasterTakesLess(n: nat, a: real, b: real)
    requires 0.0 < a <= b
    ensures BytesUs(n, b) <= BytesUs(n, a)
  {
    SmallerQuotient(n as real, a * 1000.0, b * 1000.0);
  }

  lemma SmallerQuotient(n: real, a: real, b: real)
    requires n >= 0.0 && 0.0 < a <= b
    ensures n / b <= n / a
  {
    var q := n / b;
    assert q * b == n && q >= 0.0;
    assert q * a <= q * b;
    DivideAtLeast(q, a, n);
  }

  lemma DivideAtLeast(q: real, a: real, n: real)
    requires a > 0.0 && q * a <= n
    ensures q <= n / a
  {}

  /** With such parameters at the sizes of the events, "gmac" is never slower than "aes-gcm". */
  lemma GmacIsNeverSlower(es: seq<Event>, p: Params, caps: Caps)
    requires p.Valid() && Known(es) && GpuTimesOk(es) && CapsOk(caps)
    requires forall i :: 0 <= i < |es| ==> GmacIsBetter(p, es[i].sizeBytes)
    ensures Earlier(RunJobs(caps, JobsOf(es, p, Gmac)).log, RunJobs(caps, JobsOf(es, p, AesGcm)).log)
    ensures RunJobs(caps, JobsOf(es, p, Gmac)).end <= RunJobs(caps, JobsOf(es, p, AesGcm)).end
  {
    hide RunJobs, JobsOf, Joined, InterpGbps, PcieUs, BytesUs;
    forall i, dir | 0 <= i < |es|
      ensures CostsNoMore(p, Gmac, AesGcm, es[i].sizeBytes, dir)
    {
      var n := es[i].sizeBytes;
      assert GmacIsBetter(p, n);
      FasterTakesLess(n, InterpGbps(p.aesGcm.curve, n as real), InterpGbps(p.gmac.curve, n as real));
      if p.gpuGmac != p.gpuAesGcm {
        FasterTakesLess(n, p.gpuAesGcm.value, p.gpuGmac.value);
      }
    }
    var same: int -> int := s => s;
    JoinedByIdentity(es, same);
    CheaperIsNeverSlower(es, p, Gmac, caps, AesGcm, caps, same);
  }

  // ---------- The simulation ----------

  datatype SimResult = SimResult(
    endToEnd: real, breakdown: map<Category, real>, busy: map<ResourceName, real>,
    utilization: map<ResourceName, real>, comms: real, compute: real, ratio: real,
    h2dBytes: nat, d2hBytes: nat, kernels: nat)

  function BusyOf(w: World): map<ResourceName, real> {
    map n | n in ALL_RESOURCES :: Busy(w, n)
  }

  function Utilization(busy: map<ResourceName, real>, end: real): map<ResourceName, real> {
    map n | n in busy :: if end > 0.0 then busy[n] / end else 0.0
  }

  function Report(w: World, h2dBytes: nat, d2hBytes: nat, kernels: nat): SimResult {
    SimResult(w.end, w.breakdown, BusyOf(w), Utilization(BusyOf(w), w.end),
              CommsUs(w), ComputeUs(w), if ComputeUs(w) > 0.0 then CommsUs(w) / ComputeUs(w) else 0.0,
              h2dBytes, d2hBytes, kernels)
  }

  function H2DBytes(es: seq<Event>): nat {
    if es == [] then 0
    else H2DBytes(es[..|es| - 1]) + if es[|es| - 1].IsH2D() then es[|es| - 1].sizeBytes else 0
  }

  function D2HBytes(es: seq<Event>): nat {
    if es == [] then 0
    else D2HBytes(es[..|es| - 1]) + if es[|es| - 1].IsD2H() then es[|es| - 1].sizeBytes else 0
  }

  function Kernels(es: seq<Event>): nat {
    if es == [] then 0 else Kernels(es[..|es| - 1]) + if es[|es| - 1].IsKernel() then 1 else 0
  }

  lemma AllNames(r: ResourceName)
    ensures r in ALL_RESOURCES
  {
    assert ALL_RESOURCES[0] == CpuCrypto && ALL_RESOURCES[1] == SwiotlbCopy && ALL_RESOURCES[2] == PcieH2D;
    assert ALL_RESOURCES[3] == PcieD2H && ALL_RESOURCES[4] == GpuCryptoH2D && ALL_RESOURCES[5] == GpuCryptoD2H;
    assert ALL_RESOURCES[6] == GpuCompute;
  }

  lemma {:induction false} TotalsFront(e: Event, es: seq<Event>)
    ensures H2DBytes([e] + es) == (if e.IsH2D() then e.sizeBytes else 0) + H2DBytes(es)
    ensures D2HBytes([e] + es) == (if e.IsD2H() then e.sizeBytes else 0) + D2HBytes(es)
    ensures Kernels([e] + es) == (if e.IsKernel() then 1 else 0) + Kernels(es)
  {
    if es == [] {
      assert ([e] + es)[..0] == es;
    } else {
      TotalsFront(e, es[..|es| - 1]);
      assert ([e] + es)[..|es|] == [e] + es[..|es| - 1];
    }
  }

  lemma {:induction false} TotalsInsert(es: seq<Event>, e: Event)
    ensures H2DBytes(InsertEvent(es, e)) == H2DBytes(es) + if e.IsH2D() then e.sizeBytes else 0
    ensures D2HBytes(InsertEvent(es, e)) == D2HBytes(es) + if e.IsD2H() then e.sizeBytes else 0
    ensures Kernels(InsertEvent(es, e)) == Kernels(es) + if e.IsKernel() then 1 else 0
  {
    hide H2DBytes, D2HBytes, Kernels, KeyLess;
    if es == [] || KeyLess(e, es[0]) {
      TotalsFront(e, es);
    } else {
      TotalsInsert(es[1..], e);
      TotalsFront(es[0], es[1..]);
      TotalsFront(es[0], InsertEvent(es[1..], e));
      assert es == [es[0]] + es[1..];
    }
  }

  /** Sorting does not change the totals of a trace. */
  lemma {:induction false} SortKeepsTotals(es: seq<Event>)
    ensures H2DBytes(SortEvents(es)) == H2DBytes(es)
    ensures D2HBytes(SortEvents(es)) == D2HBytes(es)
    ensures Kernels(SortEvents(es)) == Kernels(es)
  {
    if es != [] {
      hide InsertEvent;
      var n := |es| - 1;
      SortKeepsTotals(es[..n]);
      TotalsInsert(SortEvents(es[..n]), es[n]);
    }
  }

  /** Each utilization is the share of the makespan that its busy time is. */
  lemma UtilizationShare(busy: map<ResourceName, real>, end: real, n: ResourceName)
    requires n in busy && end >= 0.0 && (end == 0.0 ==> busy[n] == 0.0)
    ensures Utilization(busy, end).Keys == busy.Keys
    ensures Utilization(busy, end)[n] * end == busy[n] && (end == 0.0 ==> Utilization(busy, end)[n] == 0.0)
  {
    if end > 0.0 {
      assert busy[n] / end * end == busy[n];
    }
  }

  lemma {:induction false} TimeNonNegative(log: seq<Slot>, m: Measure)
    requires InOrder(log)
    ensures Time(log, m) >= 0.0
  {
    if log != [] {
      TimeNonNegative(log[..|log| - 1], m);
    }
  }

  lemma NothingBusyInNoTime(caps: Caps, jobs: seq<Job>, n: ResourceName)
    requires Runnable(caps, jobs) && RunJobs(caps, jobs).end == 0.0
    ensures Busy(RunJobs(caps, jobs), n) == 0.0
  {
    hide RunJobs, Work;
    MakespanBounds(caps, jobs, 0, n);
    JobsTakeTheirTime(caps, jobs, OnResource(n));
    StreamsStayInOrder(caps, jobs);
    TimeNonNegative(RunJobs(caps, jobs).log, OnResource(n));
    assert Cap(caps, n) as real * 0.0 == 0.0;
  }

  /** The busy times of a report are the work on each resource, and the utilizations are their shares. */
  lemma ReportBusy(caps: Caps, jobs: seq<Job>, n: ResourceName, h2dBytes: nat, d2hBytes: nat, kernels: nat)
    requires Runnable(caps, jobs)
    ensures var r := Report(RunJobs(caps, jobs), h2dBytes, d2hBytes, kernels);
      && n in r.busy && r.busy[n] == Work(jobs, OnResource(n))
      && n in r.utilization && r.utilization[n] * r.endToEnd == r.busy[n]
      && (r.endToEnd == 0.0 ==> r.utilization[n] == 0.0)
  {
    hide RunJobs, Work, Busy, BusyOf, CommsUs, ComputeUs, Utilization, NonNegative;
    var w := RunJobs(caps, jobs);
    BusyAt(w, n);
    BusyIsWork(caps, jobs, n);
    EndNonNegative(caps, jobs);
    if w.end == 0.0 {
      NothingBusyInNoTime(caps, jobs, n);
    }
    UtilizationShare(BusyOf(w), w.end, n);
  }

  lemma BusyAt(w: World, n: ResourceName)
    ensures n in BusyOf(w) && BusyOf(w)[n] == Busy(w, n)
  {
    AllNames(n);
  }

  lemma BusyIsWork(caps: Caps, jobs: seq<Job>, n: ResourceName)
    requires Runnable(caps, jobs)
    ensures Busy(RunJobs(caps, jobs), n) == Work(jobs, OnResource(n))
  {
    hide RunJobs, Work, Cap, NonNegative;
    MakespanBounds(caps, jobs, 0, n);
  }

  lemma EndNonNegative(caps: Caps, jobs: seq<Job>)
    requires Runnable(caps, jobs)
    ensures RunJobs(caps, jobs).end >= 0.0
  {
    hide RunJobs;
    RunIsGood(caps, jobs);
  }

  /** The makespan of a report is the latest finish. */
  lemma ReportEnd(caps: Caps, jobs: seq<Job>, h2dBytes: nat, d2hBytes: nat, kernels: nat)
    requires Runnable(caps, jobs)
    ensures var w, r := RunJobs(caps, jobs), Report(RunJobs(caps, jobs), h2dBytes, d2hBytes, kernels);
      && (forall i :: 0 <= i < |w.log| ==> w.log[i].finish <= r.endToEnd)
      && (r.endToEnd == 0.0 || exists i :: 0 <= i < |w.log| && w.log[i].finish == r.endToEnd)
  {
    hide RunJobs, Utilization, CommsUs, ComputeUs;
    Eager.EndIsLatest(caps, jobs);
  }

  /** The breakdown is the work in each category; computing and the rest make up all work and the ratio. */
  lemma ReportTimes(caps: Caps, jobs: seq<Job>, h2dBytes: nat, d2hBytes: nat, kernels: nat)
    requires Runnable(caps, jobs)
    ensures var r := Report(RunJobs(caps, jobs), h2dBytes, d2hBytes, kernels);
      && (forall c :: (if c in r.breakdown then r.breakdown[c] else 0.0) == Work(jobs, OfCategory(c)))
      && r.compute == Work(jobs, OfCategory(GpuComputeTime)) && r.comms + r.compute == Work(jobs, All)
      && (if r.compute > 0.0 then r.ratio * r.compute == r.comms else r.ratio == 0.0)
  {
    hide RunJobs, Work, CommsUs, Utilization, BusyOf;
    var w := RunJobs(caps, jobs);
    TimeIsConserved(caps, jobs);
    forall c
      ensures Breakdown(w, c) == Work(jobs, OfCategory(c))
    {
      BreakdownIsWork(caps, jobs, c);
    }
    if ComputeUs(w) > 0.0 {
      assert CommsUs(w) / ComputeUs(w) * ComputeUs(w) == CommsUs(w);
    }
  }

  lemma BreakdownIsWork(caps: Caps, jobs: seq<Job>, c: Category)
    requires Runnable(caps, jobs)
    ensures Breakdown(RunJobs(caps, jobs), c) == Work(jobs, OfCategory(c))
  {
    hide RunJobs, Work;
    JobsTakeTheirTime(caps, jobs, OfCategory(c));
    RunIsGood(caps, jobs);
  }

  type Pool = map<ResourceName, Resource>

  /** The resource objects hold what the world says. */
  ghost predicate PoolIs(pool: Pool, caps: Caps, w: World)
    reads pool.Values
  {
    && (forall r :: r in pool)
    && (forall r, q :: r != q ==> pool[r] != pool[q])
    && forall r ::
      pool[r].capacity == Cap(caps, r) && pool[r].inflight == Inflight(w, r) && pool[r].busyUs == Busy(w, r)
  }

  /** ResourcePool */
  method NewPool(caps: Caps) returns (pool: Pool)
    ensures PoolIs(pool, caps, START) && fresh(pool.Values)
  {
    hide Cap;
    pool := map[];
    for i := 0 to |ALL_RESOURCES|
      invariant forall r :: r in pool <==> r in ALL_RESOURCES[..i]
      invariant forall r :: r in pool ==> fresh(pool[r])
      invariant forall r, q :: r in pool && q in pool && r != q ==> pool[r] != pool[q]
      invariant forall r :: r in pool ==>
        pool[r].capacity == Cap(caps, r) && pool[r].inflight == [] && pool[r].busyUs == 0.0
    {
      var res := new Resource(Cap(caps, ALL_RESOURCES[i]));
      pool := pool[ALL_RESOURCES[i] := res];
    }
    forall r
      ensures r in pool
    {
      AllNames(r);
    }
  }

  /** One stage on the pool. */
  method DoStage(pool: Pool, caps: Caps, ghost w: World, stream: int, t: real, st: Stage) returns (finish: real)
    requires CapsOk(caps) && PoolIs(pool, caps, w)
    modifies pool.Values
    ensures PoolIs(pool, caps, RunStage(caps, w, stream, t, st))
    ensures finish == Place(caps, w, stream, t, st).finish
  {
    hide Push;
    var res := pool[st.resource];
    var start := res.Acquire(t);
    finish := start + st.duration;
    res.Release(finish, Some(start));
  }

  /** simulate_trace: None when an event has a type that the pipeline does not know. */
  method SimulateTrace(events: seq<Event>, p: Params, mode: SecMode, caps: Caps) returns (r: Option<SimResult>)
    requires p.Valid() && CapsOk(caps)
    ensures r.None? <==> !Known(events)
    ensures Known(events) ==>
      && Known(SortEvents(events))
      && r == Some(Report(RunJobs(caps, JobsOf(SortEvents(events), p, mode)),
                          H2DBytes(SortEvents(events)), D2HBytes(SortEvents(events)), Kernels(SortEvents(events))))
  {
    hide RunStage, RunStages, Place, PoolIs, SortEvents, H2DBytes, D2HBytes, Kernels, Expand, JobsOf, RunJobs;
    hide Busy, Utilization;
    var pool := NewPool(caps);
    var streamReady, breakdown, endToEnd: real := map[], map[], 0.0;
    var h2dBytes, d2hBytes, kernels := 0, 0, 0;
    var ordered := SortEvents(events);
    SortKnown(events);
    ghost var w := START;
    CountsAt(ordered, 0);
    JobsStart(ordered, p, mode, caps);
    for i := 0 to |ordered|
      invariant Known(ordered[..i]) && w == RunJobs(caps, JobsOf(ordered[..i], p, mode))
      invariant PoolIs(pool, caps, w) && fresh(pool.Values)
      invariant streamReady == w.ready && breakdown == w.breakdown && endToEnd == w.end
      invariant h2dBytes == H2DBytes(ordered[..i]) && d2hBytes == D2HBytes(ordered[..i])
      invariant kernels == Kernels(ordered[..i])
    {
      var ev := ordered[i];
      CountsAt(ordered, i + 1);
      if ev.IsKernel() {
        kernels := kernels + 1;
      } else if ev.IsH2D() {
        h2dBytes := h2dBytes + ev.sizeBytes;
      } else if ev.IsD2H() {
        d2hBytes := d2hBytes + ev.sizeBytes;
      }
      var stages := Expand(ev, p, mode);
      ExpandKnown(ev, p, mode);
      if stages.None? {
        return None;
      }
      var t0 := if ev.stream in streamReady then streamReady[ev.stream] else 0.0;
      var t;
      ghost var v;
      t, breakdown, v := DoStages(pool, caps, w, ev.stream, t0, stages.value, breakdown);
      streamReady := streamReady[ev.stream := t];
      endToEnd := Max(endToEnd, t);
      JobsStep(ordered, p, mode, caps, i);
      PoolIgnores(pool, caps, v, ev.stream, t);
      w := v.(ready := v.ready[ev.stream := t], end := Max(v.end, t));
    }
    assert ordered[..|ordered|] == ordered;
    var busy := BusyTimes(pool, caps, w);
    var util := Utilization(busy, endToEnd);
    var compute := if GpuComputeTime in breakdown then breakdown[GpuComputeTime] else 0.0;
    var comms := CommsOf(breakdown);
    var ratio := if compute > 0.0 then comms / compute else 0.0;
    r := Some(SimResult(endToEnd, breakdown, busy, util, comms, compute, ratio, h2dBytes, d2hBytes, kernels));
  }

  lemma PoolIgnores(pool: Pool, caps: Caps, v: World, stream: int, t: real)
    requires PoolIs(pool, caps, v)
    ensures PoolIs(pool, caps, v.(ready := v.ready[stream := t], end := Max(v.end, t)))
  {}

  /** The inner loop of simulate_trace. */
  method DoStages(pool: Pool, caps: Caps, ghost w: World, stream: int, t0: real, stages: seq<Stage>,
                  breakdown0: map<Category, real>)
    returns (t: real, breakdown: map<Category, real>, ghost v: World)
    requires CapsOk(caps) && PoolIs(pool, caps, w) && breakdown0 == w.breakdown
    modifies pool.Values
    ensures (v, t) == RunStages(caps, w, stream, t0, stages)
    ensures PoolIs(pool, caps, v) && breakdown == v.breakdown && v.ready == w.ready && v.end == w.end
  {
    hide PoolIs, Place, RunStage;
    t, breakdown, v := t0, breakdown0, w;
    for j := 0 to |stages|
      invariant (v, t) == RunStages(caps, w, stream, t0, stages[..j])
      invariant PoolIs(pool, caps, v) && breakdown == v.breakdown && v.ready == w.ready && v.end == w.end
    {
      var st := stages[j];
      StageShape(caps, v, stream, t, st);
      var finish := DoStage(pool, caps, v, stream, t, st);
      var soFar := if st.category in breakdown then breakdown[st.category] else 0.0;
      breakdown := breakdown[st.category := soFar + st.duration];
      assert stages[..j + 1][..j] == stages[..j];
      v := RunStage(caps, v, stream, t, st);
      t := finish;
    }
    assert stages[..|stages|] == stages;
  }

  /** busy_times */
  method BusyTimes(pool: Pool, caps: Caps, ghost w: World) returns (busy: map<ResourceName, real>)
    requires PoolIs(pool, caps, w)
    ensures busy == BusyOf(w)
  {
    busy := map n | n in ALL_RESOURCES :: pool[n].busyUs;
  }

  /** The sum over all categories but the GPU's own computing. */
  function CommsOf(breakdown: map<Category, real>): real {
    var get := (c: Category) => if c in breakdown then breakdown[c] else 0.0;
    get(CpuCryptoTime) + get(SwiotlbTime) + get(PcieH2DTime) + get(PcieD2HTime) + get(GpuCryptoTime)
  }

  lemma ExpandKnown(e: Event, p: Params, mode: SecMode)
    requires p.Valid()
    ensures Expand(e, p, mode).Some? <==> e.kind != UnknownType
  {}

  lemma SortKnown(es: seq<Event>)
    ensures Known(SortEvents(es)) <==> Known(es)
  {
    SortEventsSpec(es);
    var s := SortEvents(es);
    if Known(s) {
      forall i | 0 <= i < |es|
        ensures es[i].kind != UnknownType
      {
        assert es[i] in s;
      }
    }
    if Known(es) {
      forall i | 0 <= i < |s|
        ensures s[i].kind != UnknownType
      {
        assert s[i] in es;
      }
    }
  }

  lemma JobsStart(es: seq<Event>, p: Params, mode: SecMode, caps: Caps)
    requires p.Valid() && CapsOk(caps)
    ensures RunJobs(caps, JobsOf(es[..0], p, mode)) == START
  {}

  lemma JobsStep(es: seq<Event>, p: Params, mode: SecMode, caps: Caps, i: nat)
    requires i < |es| && p.Valid() && CapsOk(caps) && Known(es[..i + 1])
    ensures Known(es[..i])
    ensures RunJobs(caps, JobsOf(es[..i + 1], p, mode))
         == RunJob(caps, RunJobs(caps, JobsOf(es[..i], p, mode)), JobOf(es[i], p, mode))
  {
    hide RunJob, JobOf;
    assert es[..i + 1][i] == es[i];
    forall k | 0 <= k < i
      ensures es[..i][k].kind != UnknownType
    {
      assert es[..i + 1][k] == es[..i][k];
    }
    assert JobsOf(es[..i + 1], p, mode)[..i] == JobsOf(es[..i], p, mode);
  }

  lemma CountsAt(es: seq<Event>, i: nat)
    requires i <= |es|
    ensures i == 0 ==> H2DBytes(es[..i]) == 0 && D2HBytes(es[..i]) == 0 && Kernels(es[..i]) == 0
    ensures i > 0 ==>
      && H2DBytes(es[..i]) == H2DBytes(es[..i - 1]) + (if es[i - 1].IsH2D() then es[i - 1].sizeBytes else 0)
      && D2HBytes(es[..i]) == D2HBytes(es[..i - 1]) + (if es[i - 1].IsD2H() then es[i - 1].sizeBytes else 0)
      && Kernels(es[..i]) == Kernels(es[..i - 1]) + (if es[i - 1].IsKernel() then 1 else 0)
  {
    if i > 0 {
      assert es[..i][..i - 1] == es[..i - 1];
    }
  }
}
