/**
 What the pipeline does with one event: which costs its stages add up to, in each category
 and on each resource, in which order they come, and what each cost depends on.
 */
module Expansion {
  import opened Pipeline
  import opened Resources
  import opened Schedule
  import opened Wrappers

  /** The kinds of event that move bytes in a direction. */
  predicate Moves(kind: EventType, dir: Direction) {
    if dir == H2D then kind in {DataH2D, ControlH2D} else kind in {DataD2H, ControlD2H}
  }

  // ---------- Costs ----------

  /** us is the time of n bytes at gbps gigabytes per second; without a rate it is none. */
  predicate Takes(us: real, n: nat, gbps: real) {
    if gbps <= 0.0 then us == 0.0 else us * gbps * 1000.0 == n as real
  }

  lemma BytesTake(n: nat, gbps: real)
    ensures Takes(BytesUs(n, gbps), n, gbps)
  {
    if gbps > 0.0 {
      var rate := gbps * 1000.0;
      assert n as real / rate * rate == n as real;
    }
  }

  /** Each mode has its own latency and its own measured throughput at the event's size. */
  lemma CpuCryptoCost(p: Params, n: nat)
    requires p.Valid()
    ensures CpuCryptoUs(p, NoSec, n) == 0.0
    ensures Takes(CpuCryptoUs(p, Gmac, n) - p.gmac.fixedLatency, n, InterpGbps(p.gmac.curve, n as real))
    ensures Takes(CpuCryptoUs(p, AesGcm, n) - p.aesGcm.fixedLatency, n, InterpGbps(p.aesGcm.curve, n as real))
  {
    hide InterpGbps;
    BytesTake(n, InterpGbps(p.gmac.curve, n as real));
    BytesTake(n, InterpGbps(p.aesGcm.curve, n as real));
  }

  /** Both directions are mapped alike; the copy has a throughput for each. */
  lemma SwiotlbCost(p: Params, mode: SecMode, n: nat)
    ensures mode == NoSec ==> SwiotlbUs(p, mode, n, H2D) == SwiotlbUs(p, mode, n, D2H) == 0.0
    ensures mode != NoSec ==> Takes(SwiotlbUs(p, mode, n, H2D) - p.mapUnmapFixed, n, p.privateToShared)
    ensures mode != NoSec ==> Takes(SwiotlbUs(p, mode, n, D2H) - p.mapUnmapFixed, n, p.sharedToPrivate)
  {
    BytesTake(n, p.privateToShared);
    BytesTake(n, p.sharedToPrivate);
  }

  lemma PcieCost(p: Params, n: nat)
    requires p.Valid()
    ensures Takes(PcieUs(p, n, H2D) - p.pcieH2D.fixedLatency, n, InterpGbps(p.pcieH2D.curve, n as real))
    ensures Takes(PcieUs(p, n, D2H) - p.pcieD2H.fixedLatency, n, InterpGbps(p.pcieD2H.curve, n as real))
  {
    hide InterpGbps;
    BytesTake(n, InterpGbps(p.pcieH2D.curve, n as real));
    BytesTake(n, InterpGbps(p.pcieD2H.curve, n as real));
  }

  /** A mode's own rate if there is one other than zero, else the link's time if so configured, else none. */
  lemma GpuCryptoCost(p: Params, n: nat, dir: Direction, rate: real)
    requires p.Valid() && rate != 0.0
    ensures GpuCryptoUs(p, NoSec, n, dir) == 0.0
    ensures p.gpuGmac == Some(rate) ==> Takes(GpuCryptoUs(p, Gmac, n, dir), n, rate)
    ensures p.gpuAesGcm == Some(rate) ==> Takes(GpuCryptoUs(p, AesGcm, n, dir), n, rate)
    ensures p.gpuGmac in {None, Some(0.0)} ==>
      GpuCryptoUs(p, Gmac, n, dir) == if p.pcieLineRate then PcieUs(p, n, dir) else 0.0
    ensures p.gpuAesGcm in {None, Some(0.0)} ==>
      GpuCryptoUs(p, AesGcm, n, dir) == if p.pcieLineRate then PcieUs(p, n, dir) else 0.0
  {
    hide PcieUs;
    BytesTake(n, rate);
  }

  // ---------- Sums of stages ----------

  lemma OneMoreStage(stages: seq<Stage>, st: Stage, s: int, m: Measure)
    ensures StagesWork(stages + [st], s, m) == StagesWork(stages, s, m) + StageWork(st, s, m)
  {
    assert (stages + [st])[..|stages|] == stages;
  }

  lemma FourStages(a: Stage, b: Stage, c: Stage, d: Stage, s: int, m: Measure)
    ensures StagesWork([a], s, m) == StageWork(a, s, m)
    ensures StagesWork([a, b, c, d], s, m)
         == StageWork(a, s, m) + StageWork(b, s, m) + StageWork(c, s, m) + StageWork(d, s, m)
  {
    hide StageWork;
    OneMoreStage([], a, s, m);
    OneMoreStage([a], b, s, m);
    OneMoreStage([a, b], c, s, m);
    OneMoreStage([a, b, c], d, s, m);
    assert [] + [a] == [a] && [a] + [b] == [a, b] && [a, b] + [c] == [a, b, c] && [a, b, c] + [d] == [a, b, c, d];
  }

  /** The time of an event's stages in a category. */
  function TimeIn(e: Event, p: Params, mode: SecMode, c: Category): real
    requires p.Valid() && e.kind != UnknownType
  {
    StagesWork(Expand(e, p, mode).value, e.stream, OfCategory(c))
  }

  /** The time of an event's stages on a resource. */
  function TimeOn(e: Event, p: Params, mode: SecMode, r: ResourceName): real
    requires p.Valid() && e.kind != UnknownType
  {
    StagesWork(Expand(e, p, mode).value, e.stream, OnResource(r))
  }

  lemma TransferWork(e: Event, p: Params, mode: SecMode, dir: Direction, m: Measure)
    requires p.Valid() && Moves(e.kind, dir)
    ensures StagesWork(Expand(e, p, mode).value, e.stream, m)
         == var n, s := e.sizeBytes, e.stream;
            StageWork(Stage(CpuCrypto, CpuCryptoUs(p, mode, n), CpuCryptoTime), s, m)
            + StageWork(Stage(SwiotlbCopy, SwiotlbUs(p, mode, n, dir), SwiotlbTime), s, m)
            + (if dir == H2D then StageWork(Stage(PcieH2D, PcieUs(p, n, H2D), PcieH2DTime), s, m)
               else StageWork(Stage(PcieD2H, PcieUs(p, n, D2H), PcieD2HTime), s, m))
            + StageWork(Stage(if dir == H2D then GpuCryptoH2D else GpuCryptoD2H, GpuCryptoUs(p, mode, n, dir),
                              GpuCryptoTime), s, m)
  {
    hide CpuCryptoUs, SwiotlbUs, PcieUs, GpuCryptoUs, StagesWork, StageWork;
    var st := Expand(e, p, mode).value;
    FourStages(st[0], st[1], st[2], st[3], e.stream, m);
    assert st == [st[0], st[1], st[2], st[3]];
  }

  /** A transfer pays each cost of its direction once, and nothing for the other direction or for computing. */
  lemma TransferTimes(e: Event, p: Params, mode: SecMode, dir: Direction)
    requires p.Valid() && Moves(e.kind, dir)
    ensures TimeIn(e, p, mode, CpuCryptoTime) == TimeOn(e, p, mode, CpuCrypto) == CpuCryptoUs(p, mode, e.sizeBytes)
    ensures TimeIn(e, p, mode, SwiotlbTime) == TimeOn(e, p, mode, SwiotlbCopy) == SwiotlbUs(p, mode, e.sizeBytes, dir)
    ensures TimeIn(e, p, mode, PcieH2DTime) == TimeOn(e, p, mode, PcieH2D)
         == if dir == H2D then PcieUs(p, e.sizeBytes, H2D) else 0.0
    ensures TimeIn(e, p, mode, PcieD2HTime) == TimeOn(e, p, mode, PcieD2H)
         == if dir == D2H then PcieUs(p, e.sizeBytes, D2H) else 0.0
    ensures TimeIn(e, p, mode, GpuCryptoTime) == GpuCryptoUs(p, mode, e.sizeBytes, dir)
    ensures TimeOn(e, p, mode, GpuCryptoH2D) == if dir == H2D then GpuCryptoUs(p, mode, e.sizeBytes, H2D) else 0.0
    ensures TimeOn(e, p, mode, GpuCryptoD2H) == if dir == D2H then GpuCryptoUs(p, mode, e.sizeBytes, D2H) else 0.0
    ensures TimeIn(e, p, mode, GpuComputeTime) == TimeOn(e, p, mode, GpuCompute) == 0.0
  {
    hide CpuCryptoUs, SwiotlbUs, PcieUs, GpuCryptoUs, StagesWork, Expand;
    TransferWork(e, p, mode, dir, OfCategory(CpuCryptoTime));
    TransferWork(e, p, mode, dir, OfCategory(SwiotlbTime));
    TransferWork(e, p, mode, dir, OfCategory(PcieH2DTime));
    TransferWork(e, p, mode, dir, OfCategory(PcieD2HTime));
    TransferWork(e, p, mode, dir, OfCategory(GpuCryptoTime));
    TransferWork(e, p, mode, dir, OfCategory(GpuComputeTime));
    TransferWork(e, p, mode, dir, OnResource(CpuCrypto));
    TransferWork(e, p, mode, dir, OnResource(SwiotlbCopy));
    TransferWork(e, p, mode, dir, OnResource(PcieH2D));
    TransferWork(e, p, mode, dir, OnResource(PcieD2H));
    TransferWork(e, p, mode, dir, OnResource(GpuCryptoH2D));
    TransferWork(e, p, mode, dir, OnResource(GpuCryptoD2H));
    TransferWork(e, p, mode, dir, OnResource(GpuCompute));
  }

  /** A kernel pays its own time, on the GPU. */
  lemma KernelTimes(e: Event, p: Params, mode: SecMode, c: Category, r: ResourceName)
    requires p.Valid() && e.kind == Kernel
    ensures TimeIn(e, p, mode, c) == if c == GpuComputeTime then e.gpuTime else 0.0
    ensures TimeOn(e, p, mode, r) == if r == GpuCompute then e.gpuTime else 0.0
  {
    hide StagesWork;
    var st := Expand(e, p, mode).value[0];
    FourStages(st, st, st, st, e.stream, OfCategory(c));
    FourStages(st, st, st, st, e.stream, OnResource(r));
  }

  // ---------- The order of the stages ----------

  function Route(stages: seq<Stage>): (r: seq<ResourceName>)
    ensures |r| == |stages|
  {
    seq(|stages|, i requires 0 <= i < |stages| => stages[i].resource)
  }

  /**
   Exactly the known kinds expand. A kernel computes; what goes to the device passes CPU crypto,
   copy, link and GPU crypto.
   */
  lemma ExpandRoute(e: Event, p: Params, mode: SecMode)
    requires p.Valid()
    ensures Expand(e, p, mode).None? <==> e.kind == UnknownType
    ensures e.kind == Kernel ==> Route(Expand(e, p, mode).value) == [GpuCompute]
    ensures Moves(e.kind, H2D) ==>
      Route(Expand(e, p, mode).value) == [CpuCrypto, SwiotlbCopy, PcieH2D, GpuCryptoH2D]
  {
    hide CpuCryptoUs, SwiotlbUs, PcieUs, GpuCryptoUs;
  }

  function OtherKind(kind: EventType): EventType {
    match kind
    case DataH2D => DataD2H
    case DataD2H => DataH2D
    case ControlH2D => ControlD2H
    case ControlD2H => ControlH2D
    case k => k
  }

  function OtherResource(r: ResourceName): ResourceName {
    match r
    case PcieH2D => PcieD2H
    case PcieD2H => PcieH2D
    case GpuCryptoH2D => GpuCryptoD2H
    case GpuCryptoD2H => GpuCryptoH2D
    case q => q
  }

  function OtherCategory(c: Category): Category {
    match c
    case PcieH2DTime => PcieD2HTime
    case PcieD2HTime => PcieH2DTime
    case d => d
  }

  /** The parameters with the two directions exchanged. */
  function Exchanged(p: Params): Params {
    p.(privateToShared := p.sharedToPrivate, sharedToPrivate := p.privateToShared,
       pcieH2D := p.pcieD2H, pcieD2H := p.pcieH2D)
  }

  function Backward(st: Stage): Stage {
    Stage(OtherResource(st.resource), st.duration, OtherCategory(st.category))
  }

  /** The stages backwards, each in the other direction. */
  function Backwards(stages: seq<Stage>): seq<Stage> {
    seq(|stages|, i requires 0 <= i < |stages| => Backward(stages[|stages| - 1 - i]))
  }

  /** A transfer is the reverse of the same transfer in the other direction. */
  lemma DirectionsMirror(e: Event, p: Params, mode: SecMode)
    requires p.Valid() && e.kind != UnknownType
    ensures Expand(e.(kind := OtherKind(e.kind)), Exchanged(p), mode)
         == Some(Backwards(Expand(e, p, mode).value))
  {
    hide CpuCryptoUs, SwiotlbUs, PcieUs, GpuCryptoUs;
    CostsMirror(p, mode, e.sizeBytes, H2D, D2H);
    CostsMirror(p, mode, e.sizeBytes, D2H, H2D);
    var stages, back := Expand(e, p, mode).value, Backwards(Expand(e, p, mode).value);
    var other := Expand(e.(kind := OtherKind(e.kind)), Exchanged(p), mode).value;
    if e.kind == Kernel {
      assert back[0] == Backward(stages[0]) && other[0] == back[0];
    } else {
      assert |other| == |back| == 4;
      assert back[0] == Backward(stages[3]) && back[1] == Backward(stages[2]);
      assert back[2] == Backward(stages[1]) && back[3] == Backward(stages[0]);
      assert other[0] == back[0];
      assert other[1] == back[1];
      assert other[2] == back[2];
      assert other[3] == back[3];
    }
    assert other == back;
  }

  lemma CostsMirror(p: Params, mode: SecMode, n: nat, dir: Direction, other: Direction)
    requires p.Valid() && dir != other
    ensures CpuCryptoUs(Exchanged(p), mode, n) == CpuCryptoUs(p, mode, n)
    ensures SwiotlbUs(Exchanged(p), mode, n, other) == SwiotlbUs(p, mode, n, dir)
    ensures PcieUs(Exchanged(p), n, other) == PcieUs(p, n, dir)
    ensures GpuCryptoUs(Exchanged(p), mode, n, other) == GpuCryptoUs(p, mode, n, dir)
  {
    hide InterpGbps, BytesUs;
  }
}
