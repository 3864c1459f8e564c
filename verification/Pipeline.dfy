/**
 events.py, cost_model.py and pipeline.py: what an event costs, stage by stage, in each
 security mode.
 */
module Pipeline {
  import opened Resources
  import opened Wrappers

  datatype EventType = DataH2D | DataD2H | ControlH2D | ControlD2H | Kernel | UnknownType

  datatype Event = Event(id: int, kind: EventType, stream: int, sizeBytes: nat, origStart: real, gpuTime: real) {
    predicate IsH2D() { kind == DataH2D || kind == ControlH2D }
    predicate IsD2H() { kind == DataD2H || kind == ControlD2H }
    predicate IsKernel() { kind == Kernel }
  }

  datatype SecMode = AesGcm | Gmac | NoSec

  datatype Direction = H2D | D2H

  // ---------- Interpolated throughput ----------

  datatype Point = Point(x: real, y: real)

  ghost predicate ByX(pts: seq<Point>) {
    forall i, j :: 0 <= i < j < |pts| ==> pts[i].x <= pts[j].x
  }

  function InsertPoint(pts: seq<Point>, p: Point): seq<Point> {
    if pts == [] || p.x < pts[0].x then [p] + pts else [pts[0]] + InsertPoint(pts[1..], p)
  }

  /** sorted(curve, key=x): stable. */
  function SortPoints(pts: seq<Point>): seq<Point> {
    if pts == [] then [] else InsertPoint(SortPoints(pts[..|pts| - 1]), pts[|pts| - 1])
  }

  lemma {:induction false} InsertPointElements(pts: seq<Point>, p: Point)
    ensures multiset(InsertPoint(pts, p)) == multiset(pts) + multiset{p}
    ensures |InsertPoint(pts, p)| == |pts| + 1
  {
    if pts == [] || p.x < pts[0].x {
    } else {
      InsertPointElements(pts[1..], p);
      assert pts == [pts[0]] + pts[1..];
    }
  }

  lemma {:induction false} InsertPointSorted(pts: seq<Point>, p: Point)
    requires ByX(pts)
    ensures ByX(InsertPoint(pts, p))
    ensures InsertPoint(pts, p) != [] && InsertPoint(pts, p)[0] == if pts == [] || p.x < pts[0].x then p else pts[0]
  {
    if pts == [] || p.x < pts[0].x {
    } else {
      InsertPointSorted(pts[1..], p);
      HeadByX(pts[0], InsertPoint(pts[1..], p));
    }
  }

  lemma HeadByX(p: Point, r: seq<Point>)
    requires ByX(r) && (r == [] || p.x <= r[0].x)
    ensures ByX([p] + r)
  {}

  lemma {:induction false} SortPointsSorted(pts: seq<Point>)
    ensures ByX(SortPoints(pts)) && multiset(SortPoints(pts)) == multiset(pts)
    ensures |SortPoints(pts)| == |pts|
  {
    if pts != [] {
      hide InsertPoint, ByX;
      var inner, last := SortPoints(pts[..|pts| - 1]), pts[|pts| - 1];
      SortPointsSorted(pts[..|pts| - 1]);
      InsertPointSorted(inner, last);
      InsertPointElements(inner, last);
      LastElement(pts);
    }
  }

  lemma LastElement(pts: seq<Point>)
    requires pts != []
    ensures multiset(pts) == multiset(pts[..|pts| - 1]) + multiset{pts[|pts| - 1]}
  {
    assert pts == pts[..|pts| - 1] + [pts[|pts| - 1]];
  }

  /** The points at a size, in order. */
  function PointsAt(pts: seq<Point>, x: real): seq<Point> {
    if pts == [] then [] else (if pts[0].x == x then [pts[0]] else []) + PointsAt(pts[1..], x)
  }

  lemma {:induction false} PointsAtAppend(pts: seq<Point>, p: Point, x: real)
    ensures PointsAt(pts + [p], x) == PointsAt(pts, x) + (if p.x == x then [p] else [])
  {
    if pts == [] {
      assert ([] + [p])[1..] == [];
    } else {
      PointsAtAppend(pts[1..], p, x);
      assert (pts + [p])[1..] == pts[1..] + [p];
    }
  }

  lemma {:induction false} NoPointsBelow(pts: seq<Point>, x: real)
    requires ByX(pts) && (pts == [] || x < pts[0].x)
    ensures PointsAt(pts, x) == []
  {
    if pts != [] {
      NoPointsBelow(pts[1..], x);
    }
  }

  lemma {:induction false} InsertPointStable(pts: seq<Point>, p: Point, x: real)
    requires ByX(pts)
    ensures PointsAt(InsertPoint(pts, p), x) == PointsAt(pts, x) + (if p.x == x then [p] else [])
  {
    if pts == [] || p.x < pts[0].x {
      assert InsertPoint(pts, p)[1..] == pts;
      if p.x == x {
        NoPointsBelow(pts, x);
      }
    } else {
      InsertPointStable(pts[1..], p, x);
      assert InsertPoint(pts, p)[1..] == InsertPoint(pts[1..], p);
    }
  }

  /** Points at the same size keep their order. */
  lemma {:induction false} SortPointsStable(pts: seq<Point>, x: real)
    ensures PointsAt(SortPoints(pts), x) == PointsAt(pts, x)
  {
    if pts != [] {
      hide InsertPoint, ByX, PointsAt;
      var n := |pts| - 1;
      SortPointsStable(pts[..n], x);
      SortPointsSorted(pts[..n]);
      InsertPointStable(SortPoints(pts[..n]), pts[n], x);
      PointsAtAppend(pts[..n], pts[n], x);
      assert pts == pts[..n] + [pts[n]];
    }
  }

  /** The scan over neighbouring points: strictly right of the first point, it never divides by zero. */
  function Scan(pts: seq<Point>, size: real): real
    requires ByX(pts) && pts != [] && pts[0].x < size
  {
    if |pts| == 1 then pts[0].y
    else
      var p0, p1 := pts[0], pts[1];
      if size <= p1.x then Line(p0, p1, size) else Scan(pts[1..], size)
  }

  /** The point at size on the line through two points. */
  function Line(p: Point, q: Point, size: real): real
    requires p.x < q.x
  {
    p.y + (size - p.x) / (q.x - p.x) * (q.y - p.y)
  }

  /** interp_gbps */
  function InterpGbps(curve: seq<Point>, size: real): real
    requires curve != []
  {
    SortPointsSorted(curve);
    var pts := SortPoints(curve);
    if size <= pts[0].x then pts[0].y
    else if size >= pts[|pts| - 1].x then pts[|pts| - 1].y
    else Scan(pts, size)
  }

  /** The scan finds the neighbours of a size; the value is on the line between them. */
  lemma {:induction false} ScanFinds(pts: seq<Point>, size: real, i: nat)
    requires ByX(pts) && 0 < i < |pts| && pts[i - 1].x < size <= pts[i].x
    ensures pts[0].x < size && Scan(pts, size) == Line(pts[i - 1], pts[i], size)
  {
    hide Line;
    if i > 1 {
      ScanFinds(pts[1..], size, i - 1);
    }
  }

  /** The slope up to size is the slope between the two points. */
  lemma LineIsLinear(p: Point, q: Point, size: real)
    requires p.x < q.x
    ensures (Line(p, q, size) - p.y) * (q.x - p.x) == (size - p.x) * (q.y - p.y)
  {
    var w, h, t := q.x - p.x, q.y - p.y, (size - p.x) / (q.x - p.x);
    assert t * w == size - p.x;
    assert t * h * w == t * w * h;
  }

  /** Constant outside the curve, and linear between any two neighbours. */
  lemma InterpIsLinear(curve: seq<Point>, size: real, i: nat)
    requires curve != [] && i < |curve|
    ensures |SortPoints(curve)| == |curve|
    ensures var pts, last, y := SortPoints(curve), |curve| - 1, InterpGbps(curve, size);
      && (size <= pts[0].x ==> y == pts[0].y)
      && (pts[0].x < size && pts[last].x <= size ==> y == pts[last].y)
      && (i > 0 && pts[i - 1].x < size <= pts[i].x && size < pts[last].x ==>
            (y - pts[i - 1].y) * (pts[i].x - pts[i - 1].x) == (size - pts[i - 1].x) * (pts[i].y - pts[i - 1].y))
  {
    hide SortPoints, Scan, Line, PointsAt;
    SortPointsSorted(curve);
    var pts := SortPoints(curve);
    if i > 0 && pts[i - 1].x < size <= pts[i].x {
      ScanFinds(pts, size, i);
      LineIsLinear(pts[i - 1], pts[i], size);
    }
  }

  /** At the size of a single measurement the value is the one measured. */
  lemma InterpAtPoint(curve: seq<Point>, p: Point)
    requires curve != [] && PointsAt(curve, p.x) == [p]
    ensures InterpGbps(curve, p.x) == p.y
  {
    hide SortPoints, Scan, PointsAt, InterpGbps;
    SortPointsSorted(curve);
    SortPointsStable(curve, p.x);
    var pts := SortPoints(curve);
    var k := PointPlace(pts, p);
    InterpIsLinear(curve, p.x, k);
    if 0 < k < |pts| - 1 {
      LineEnds(pts[k - 1], pts[k], InterpGbps(curve, p.x));
    }
  }

  lemma LineEnds(p: Point, q: Point, y: real)
    requires p.x < q.x && (y - p.y) * (q.x - p.x) == (q.x - p.x) * (q.y - p.y)
    ensures y == q.y
  {
    CancelFactor(y - p.y, q.y - p.y, q.x - p.x);
  }

  lemma CancelFactor(a: real, b: real, c: real)
    requires c > 0.0 && a * c == c * b
    ensures a == b
  {}

  /** The only point at its size lies strictly between its neighbours. */
  lemma {:induction false} PointPlace(pts: seq<Point>, p: Point) returns (k: nat)
    requires ByX(pts) && PointsAt(pts, p.x) == [p]
    ensures k < |pts| && pts[k] == p
    ensures forall i :: 0 <= i < k ==> pts[i].x < p.x
    ensures forall i :: k < i < |pts| ==> p.x < pts[i].x
  {
    if pts[0].x == p.x {
      k := 0;
      assert PointsAt(pts, p.x)[0] == pts[0];
      NonePastPoint(pts[1..], p.x);
    } else {
      k := PointPlace(pts[1..], p);
      k := k + 1;
      assert pts[k] == p;
    }
  }

  lemma {:induction false} NonePastPoint(pts: seq<Point>, x: real)
    requires PointsAt(pts, x) == []
    ensures forall i :: 0 <= i < |pts| ==> pts[i].x != x
  {
    if pts != [] {
      NonePastPoint(pts[1..], x);
    }
  }

  ghost predicate Within(pts: seq<Point>, lo: real, hi: real) {
    forall i :: 0 <= i < |pts| ==> lo <= pts[i].y <= hi
  }

  lemma {:induction false} ScanWithin(pts: seq<Point>, size: real, lo: real, hi: real)
    requires ByX(pts) && pts != [] && pts[0].x < size && Within(pts, lo, hi)
    ensures lo <= Scan(pts, size) <= hi
  {
    hide Line;
    if |pts| > 1 {
      if size <= pts[1].x {
        Between(pts[0], pts[1], size);
      } else {
        ScanWithin(pts[1..], size, lo, hi);
      }
    }
  }

  /** A point between two others on their line stays between them. */
  lemma Between(p: Point, q: Point, size: real)
    requires p.x < size <= q.x
    ensures if p.y <= q.y then p.y <= Line(p, q, size) <= q.y else q.y <= Line(p, q, size) <= p.y
  {
    var t := (size - p.x) / (q.x - p.x);
    UnitFraction(size - p.x, q.x - p.x);
    var d := q.y - p.y;
    if d >= 0.0 {
      ScaleUnit(t, d);
    } else {
      ScaleUnit(t, -d);
      assert t * -d == -(t * d);
    }
  }

  lemma UnitFraction(a: real, b: real)
    requires 0.0 < a <= b
    ensures 0.0 < a / b <= 1.0
  {}

  lemma ScaleUnit(t: real, d: real)
    requires 0.0 <= t <= 1.0 && d >= 0.0
    ensures 0.0 <= t * d <= d
  {}

  /** Interpolation stays within the measured throughputs, whatever the order of the curve. */
  lemma InterpWithin(curve: seq<Point>, size: real, lo: real, hi: real)
    requires curve != [] && Within(curve, lo, hi)
    ensures lo <= InterpGbps(curve, size) <= hi
  {
    SortPointsSorted(curve);
    var pts := SortPoints(curve);
    forall i | 0 <= i < |pts|
      ensures lo <= pts[i].y <= hi
    {
      assert pts[i] in multiset(curve);
    }
    if pts[0].x < size < pts[|pts| - 1].x {
      ScanWithin(pts, size, lo, hi);
    }
  }

  // ---------- Costs ----------

  datatype Crypto = Crypto(fixedLatency: real, curve: seq<Point>)

  datatype Params = Params(
    gmac: Crypto, aesGcm: Crypto,
    mapUnmapFixed: real, privateToShared: real, sharedToPrivate: real,
    pcieH2D: Crypto, pcieD2H: Crypto,
    pcieLineRate: bool, gpuGmac: Option<real>, gpuAesGcm: Option<real>)
  {
    /** What the measured parameters look like. */
    predicate Valid() {
      && gmac.curve != [] && aesGcm.curve != [] && pcieH2D.curve != [] && pcieD2H.curve != []
      && gmac.fixedLatency >= 0.0 && aesGcm.fixedLatency >= 0.0 && mapUnmapFixed >= 0.0
      && pcieH2D.fixedLatency >= 0.0 && pcieD2H.fixedLatency >= 0.0
    }
  }

  function BytesUs(size: nat, gbps: real): real {
    if gbps <= 0.0 then 0.0 else size as real / (gbps * 1000.0)
  }

  function CpuCryptoUs(p: Params, mode: SecMode, size: nat): real
    requires p.Valid()
  {
    if mode == NoSec then 0.0
    else
      var c := if mode == Gmac then p.gmac else p.aesGcm;
      c.fixedLatency + BytesUs(size, InterpGbps(c.curve, size as real))
  }

  function SwiotlbUs(p: Params, mode: SecMode, size: nat, dir: Direction): real {
    if mode == NoSec then 0.0
    else p.mapUnmapFixed + BytesUs(size, if dir == H2D then p.privateToShared else p.sharedToPrivate)
  }

  function PcieUs(p: Params, size: nat, dir: Direction): real
    requires p.Valid()
  {
    var c := if dir == H2D then p.pcieH2D else p.pcieD2H;
    c.fixedLatency + BytesUs(size, InterpGbps(c.curve, size as real))
  }

  function GpuCryptoUs(p: Params, mode: SecMode, size: nat, dir: Direction): real
    requires p.Valid()
  {
    if mode == NoSec then 0.0
    else
      var rate := if mode == Gmac then p.gpuGmac else p.gpuAesGcm;
      var given := rate.Some? && rate.value != 0.0;
      if given then BytesUs(size, rate.value)
      else if p.pcieLineRate then PcieUs(p, size, dir)
      else BytesUs(size, 0.0)
  }

  lemma BytesUsNonNegative(size: nat, gbps: real)
    ensures BytesUs(size, gbps) >= 0.0
  {
    if gbps > 0.0 {
      QuotientNonNegative(size as real, gbps * 1000.0);
    }
  }

  lemma QuotientNonNegative(a: real, b: real)
    requires a >= 0.0 && b > 0.0
    ensures a / b >= 0.0
  {}

  /** No stage takes negative time, and without security the three extra stages take none. */
  lemma CostsNonNegative(p: Params, mode: SecMode, size: nat, dir: Direction)
    requires p.Valid()
    ensures CpuCryptoUs(p, NoSec, size) == 0.0 <= CpuCryptoUs(p, mode, size)
    ensures SwiotlbUs(p, NoSec, size, dir) == 0.0 <= SwiotlbUs(p, mode, size, dir)
    ensures GpuCryptoUs(p, NoSec, size, dir) == 0.0 <= GpuCryptoUs(p, mode, size, dir)
    ensures 0.0 <= PcieUs(p, size, dir)
  {
    forall gbps: real
      ensures BytesUs(size, gbps) >= 0.0
    {
      BytesUsNonNegative(size, gbps);
    }
  }

  // ---------- Stages ----------

  datatype Category = CpuCryptoTime | SwiotlbTime | PcieH2DTime | PcieD2HTime | GpuCryptoTime | GpuComputeTime

  datatype Stage = Stage(resource: ResourceName, duration: real, category: Category)

  /** expand: None for an event type that the pipeline does not know. */
  function Expand(e: Event, p: Params, mode: SecMode): Option<seq<Stage>>
    requires p.Valid()
  {
    var n := e.sizeBytes;
    if e.IsKernel() then Some([Stage(GpuCompute, e.gpuTime, GpuComputeTime)])
    else if e.IsH2D() then
      Some([Stage(CpuCrypto, CpuCryptoUs(p, mode, n), CpuCryptoTime),
            Stage(SwiotlbCopy, SwiotlbUs(p, mode, n, H2D), SwiotlbTime),
            Stage(PcieH2D, PcieUs(p, n, H2D), PcieH2DTime),
            Stage(GpuCryptoH2D, GpuCryptoUs(p, mode, n, H2D), GpuCryptoTime)])
    else if e.IsD2H() then
      Some([Stage(GpuCryptoD2H, GpuCryptoUs(p, mode, n, D2H), GpuCryptoTime),
            Stage(PcieD2H, PcieUs(p, n, D2H), PcieD2HTime),
            Stage(SwiotlbCopy, SwiotlbUs(p, mode, n, D2H), SwiotlbTime),
            Stage(CpuCrypto, CpuCryptoUs(p, mode, n), CpuCryptoTime)])
    else None
  }

  ghost predicate NonNegative(stages: seq<Stage>) {
    forall i :: 0 <= i < |stages| ==> stages[i].duration >= 0.0
  }

  /** The same stages on the same resources, none of them longer. */
  ghost predicate NoSlower(a: seq<Stage>, b: seq<Stage>) {
    |a| == |b| && forall i :: 0 <= i < |a| ==> a[i].resource == b[i].resource && a[i].duration <= b[i].duration
  }

  lemma ExpandNonNegative(e: Event, p: Params, mode: SecMode)
    requires p.Valid() && e.gpuTime >= 0.0
    ensures Expand(e, p, mode).Some? <==> e.kind != UnknownType
    ensures Expand(e, p, mode).Some? ==>
      && NonNegative(Expand(e, p, mode).value)
      && NoSlower(Expand(e, p, NoSec).value, Expand(e, p, mode).value)
  {
    hide CpuCryptoUs, SwiotlbUs, PcieUs, GpuCryptoUs;
    CostsNonNegative(p, mode, e.sizeBytes, H2D);
    CostsNonNegative(p, mode, e.sizeBytes, D2H);
  }
}
