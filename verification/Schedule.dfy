/**
 The schedule that engine.py builds, as a function of the jobs in order, and what holds
 of every such schedule: capacities are kept, streams stay in order, the makespan is
 bounded from both sides, times add up, and nothing gets later when costs fall.
 */
module Schedule {
  import opened Resources
  import opened Pipeline

  /** One event with its stages. */
  datatype Job = Job(stream: int, stages: seq<Stage>)

  /** One scheduled stage. */
  datatype Slot = Slot(resource: ResourceName, category: Category, stream: int, start: real, finish: real)

  type Caps = map<ResourceName, nat>

  /** capacities.get(name, 1) */
  function Cap(caps: Caps, r: ResourceName): nat {
    if r in caps then caps[r] else 1
  }

  ghost predicate CapsOk(caps: Caps) {
    forall r :: Cap(caps, r) >= 1
  }

  datatype World = World(
    inflight: map<ResourceName, seq<real>>, busy: map<ResourceName, real>, ready: map<int, real>,
    breakdown: map<Category, real>, end: real, log: seq<Slot>)

  const START: World := World(map[], map[], map[], map[], 0.0, [])

  function Inflight(w: World, r: ResourceName): seq<real> {
    if r in w.inflight then w.inflight[r] else []
  }

  function Busy(w: World, r: ResourceName): real {
    if r in w.busy then w.busy[r] else 0.0
  }

  function Ready(w: World, s: int): real {
    if s in w.ready then w.ready[s] else 0.0
  }

  function Breakdown(w: World, c: Category): real {
    if c in w.breakdown then w.breakdown[c] else 0.0
  }

  // ---------- The run ----------

  function Place(caps: Caps, w: World, stream: int, t: real, st: Stage): Slot
    requires Cap(caps, st.resource) >= 1
  {
    var start := StartTime(Cap(caps, st.resource), Inflight(w, st.resource), t);
    Slot(st.resource, st.category, stream, start, start + st.duration)
  }

  /** One pass of the inner loop. */
  function RunStage(caps: Caps, w: World, stream: int, t: real, st: Stage): World
    requires Cap(caps, st.resource) >= 1
  {
    var r, slot := st.resource, Place(caps, w, stream, t, st);
    World(w.inflight[r := After(Cap(caps, r), Inflight(w, r), slot.finish)],
          w.busy[r := Busy(w, r) + Max(0.0, slot.finish - slot.start)],
          w.ready,
          w.breakdown[st.category := Breakdown(w, st.category) + st.duration],
          w.end, w.log + [slot])
  }

  /** The inner loop over the first stages of an event that is ready at t0; also the time reached. */
  function RunStages(caps: Caps, w: World, stream: int, t0: real, stages: seq<Stage>): (World, real)
    requires forall i :: 0 <= i < |stages| ==> Cap(caps, stages[i].resource) >= 1
  {
    if stages == [] then (w, t0)
    else
      var n := |stages| - 1;
      var (v, t) := RunStages(caps, w, stream, t0, stages[..n]);
      (RunStage(caps, v, stream, t, stages[n]), Place(caps, v, stream, t, stages[n]).finish)
  }

  /** One pass of the outer loop. */
  function RunJob(caps: Caps, w: World, job: Job): World
    requires forall i :: 0 <= i < |job.stages| ==> Cap(caps, job.stages[i].resource) >= 1
  {
    var (v, t) := RunStages(caps, w, job.stream, Ready(w, job.stream), job.stages);
    v.(ready := v.ready[job.stream := t], end := Max(v.end, t))
  }

  ghost predicate Runnable(caps: Caps, jobs: seq<Job>) {
    CapsOk(caps) && forall i :: 0 <= i < |jobs| ==> NonNegative(jobs[i].stages)
  }

  ghost function RunJobs(caps: Caps, jobs: seq<Job>): World
    requires CapsOk(caps)
  {
    if jobs == [] then START else RunJob(caps, RunJobs(caps, jobs[..|jobs| - 1]), jobs[|jobs| - 1])
  }

  // ---------- Measures of a schedule ----------

  /** Which slots a sum of durations is taken over. */
  datatype Measure = All | OnResource(r: ResourceName) | OfStream(s: int) | OfCategory(c: Category)

  predicate Matches(m: Measure, r: ResourceName, s: int, c: Category) {
    match m
    case All => true
    case OnResource(r') => r == r'
    case OfStream(s') => s == s'
    case OfCategory(c') => c == c'
  }

  function SlotTime(x: Slot, m: Measure): real {
    if Matches(m, x.resource, x.stream, x.category) then x.finish - x.start else 0.0
  }

  /** The time that the matching slots take in all. */
  function Time(log: seq<Slot>, m: Measure): real {
    if log == [] then 0.0 else Time(log[..|log| - 1], m) + SlotTime(log[|log| - 1], m)
  }

  /** A slot holds its resource from its start up to, but not including, its finish. */
  predicate Covers(x: Slot, r: ResourceName, t: real) {
    x.resource == r && x.start <= t < x.finish
  }

  /** A slot that takes time holds its resource at its start, and a slot that follows may start at its finish. */
  lemma CoversEnds(x: Slot, y: Slot)
    requires x.start < x.finish <= y.start < y.finish && y.resource == x.resource
    ensures Covers(x, x.resource, x.start) && !Covers(x, x.resource, y.start) && Covers(y, x.resource, y.start)
  {}

  /** How many slots hold resource r at instant t. */
  function Overlap(log: seq<Slot>, r: ResourceName, t: real): nat {
    if log == [] then 0
    else Overlap(log[..|log| - 1], r, t) + if Covers(log[|log| - 1], r, t) then 1 else 0
  }

  lemma TimeAppend(log: seq<Slot>, x: Slot, m: Measure)
    ensures Time(log + [x], m) == Time(log, m) + SlotTime(x, m)
  {
    assert (log + [x])[..|log|] == log;
  }

  lemma OverlapAppend(log: seq<Slot>, x: Slot, r: ResourceName, t: real)
    ensures Overlap(log + [x], r, t) == Overlap(log, r, t) + if Covers(x, r, t) then 1 else 0
  {
    assert (log + [x])[..|log|] == log;
  }

  // ---------- The invariant ----------

  /** Everything about one resource: its finish times fit, and they account for load and busy time. */
  ghost predicate ResourceOk(caps: Caps, w: World, r: ResourceName) {
    && Fits(Cap(caps, r), Inflight(w, r))
    && Busy(w, r) == Time(w.log, OnResource(r)) <= Sum(Inflight(w, r))
    && forall t :: t >= 0.0 ==> Overlap(w.log, r, t) <= CountAbove(Inflight(w, r), t)
  }

  /** When stream s can go on, with stream in progress at time t. */
  function ReadyAt(w: World, stream: int, t: real, s: int): real {
    if s == stream then t else Ready(w, s)
  }

  /** Everything about one stream: its slots are over, and took no longer, when it can go on. */
  ghost predicate StreamOk(log: seq<Slot>, s: int, ready: real) {
    && 0.0 <= Time(log, OfStream(s)) <= ready <= Time(log, All)
    && forall i :: 0 <= i < |log| && log[i].stream == s ==> log[i].finish <= ready
  }

  /** The events of one stream never overlap, and the stages of an event run in order. */
  ghost predicate InOrder(log: seq<Slot>) {
    && (forall i :: 0 <= i < |log| ==> 0.0 <= log[i].start <= log[i].finish)
    && forall i, j :: 0 <= i < j < |log| && log[i].stream == log[j].stream ==> log[i].finish <= log[j].start
  }

  /** No finish time lies beyond e. */
  ghost predicate UpTo(w: World, e: real) {
    forall r, x :: x in Inflight(w, r) ==> x <= e
  }

  /** The invariant inside the inner loop, with one stream in progress at time t. */
  ghost predicate Mid(caps: Caps, w: World, stream: int, t: real) {
    && CapsOk(caps)
    && (forall r :: ResourceOk(caps, w, r))
    && (forall s :: StreamOk(w.log, s, ReadyAt(w, stream, t, s)))
    && (forall c :: Breakdown(w, c) == Time(w.log, OfCategory(c)))
    && InOrder(w.log)
    && 0.0 <= w.end <= Time(w.log, All) && UpTo(w, Max(w.end, t))
    && (forall s :: s != stream ==> Ready(w, s) <= w.end)
  }

  /** The invariant between two events. */
  ghost predicate Good(caps: Caps, w: World) {
    && CapsOk(caps)
    && (forall r :: ResourceOk(caps, w, r))
    && (forall s :: StreamOk(w.log, s, Ready(w, s)))
    && (forall c :: Breakdown(w, c) == Time(w.log, OfCategory(c)))
    && InOrder(w.log)
    && 0.0 <= w.end <= Time(w.log, All) && UpTo(w, w.end)
    && (forall s :: Ready(w, s) <= w.end)
  }

  lemma StageKeepsResource(caps: Caps, w: World, stream: int, t: real, st: Stage, r: ResourceName)
    requires CapsOk(caps) && ResourceOk(caps, w, r) && t >= 0.0 && st.duration >= 0.0
    ensures ResourceOk(caps, RunStage(caps, w, stream, t, st), r)
  {
    hide Time, Overlap, CountAbove, Sum, After, Push, StartTime, Fits, Covers;
    var v, x := RunStage(caps, w, stream, t, st), Place(caps, w, stream, t, st);
    var cap, f := Cap(caps, r), Inflight(w, r);
    TimeAppend(w.log, x, OnResource(r));
    if r == st.resource {
      AfterFits(cap, f, t, x.finish);
    }
    forall u | u >= 0.0
      ensures Overlap(v.log, r, u) <= CountAbove(Inflight(v, r), u)
    {
      OverlapAppend(w.log, x, r, u);
      if r == st.resource {
        CoverIsCounted(cap, f, t, x, u);
      } else {
        assert !Covers(x, r, u) by { NotCovered(x, r, u); }
      }
    }
  }

  lemma NotCovered(x: Slot, r: ResourceName, u: real)
    requires x.resource != r
    ensures !Covers(x, r, u)
  {}

  /** A new slot that holds the resource at u adds one finish time beyond u, and frees none. */
  lemma CoverIsCounted(cap: nat, f: seq<real>, t: real, x: Slot, u: real)
    requires cap >= 1 && Fits(cap, f) && t >= 0.0 && u >= 0.0
    requires x.start == StartTime(cap, f, t) <= x.finish
    ensures CountAbove(f, u) + (if Covers(x, x.resource, u) then 1 else 0) <= CountAbove(After(cap, f, x.finish), u)
  {
    hide CountAbove, After, StartTime;
    CountAfter(cap, f, t, x.finish, u);
    StartsAfter(cap, f, t, u);
    CountAboveBounds(f, u);
  }

  /** What the new slot looks like. */
  lemma PlaceFacts(caps: Caps, w: World, stream: int, t: real, st: Stage)
    requires CapsOk(caps) && ResourceOk(caps, w, st.resource) && t >= 0.0 && st.duration >= 0.0
    ensures var x := Place(caps, w, stream, t, st);
            && t <= x.start <= x.finish == x.start + st.duration
            && (x.start == t || x.start in Inflight(w, st.resource))
    ensures var v := RunStage(caps, w, stream, t, st);
            forall r, y :: y in Inflight(v, r) ==> y == Place(caps, w, stream, t, st).finish || y in Inflight(w, r)
  {
    var x, f := Place(caps, w, stream, t, st), Inflight(w, st.resource);
    AfterFits(Cap(caps, st.resource), f, t, x.finish);
  }

  lemma StageKeepsStream(log: seq<Slot>, x: Slot, s: int, ready: real)
    requires StreamOk(log, s, ready) && x.start <= x.finish
    requires x.stream == s ==> ready <= x.start <= Time(log, All)
    ensures StreamOk(log + [x], s, if x.stream == s then x.finish else ready)
  {
    hide Time;
    TimeAppend(log, x, OfStream(s));
    TimeAppend(log, x, All);
    var ready' := if x.stream == s then x.finish else ready;
    forall i | 0 <= i < |log + [x]| && (log + [x])[i].stream == s
      ensures (log + [x])[i].finish <= ready'
    {
      if i < |log| {
        assert (log + [x])[i] == log[i];
      }
    }
  }

  lemma StageKeepsMid(caps: Caps, w: World, stream: int, t: real, st: Stage)
    requires Mid(caps, w, stream, t) && st.duration >= 0.0
    ensures Mid(caps, RunStage(caps, w, stream, t, st), stream, Place(caps, w, stream, t, st).finish)
    ensures Place(caps, w, stream, t, st).finish >= t
  {
    hide ResourceOk, StreamOk, RunStage, Place, Time, UpTo, InOrder;
    var v, x := RunStage(caps, w, stream, t, st), Place(caps, w, stream, t, st);
    StageShape(caps, w, stream, t, st);
    StreamReady(w, stream, t);
    assert ResourceOk(caps, w, st.resource);
    PlaceFacts(caps, w, stream, t, st);
    StageBounds(w, stream, t, x, st);
    forall r
      ensures ResourceOk(caps, v, r)
    {
      StageKeepsResource(caps, w, stream, t, st, r);
    }
    forall s
      ensures StreamOk(v.log, s, ReadyAt(v, stream, x.finish, s))
    {
      assert StreamOk(w.log, s, ReadyAt(w, stream, t, s));
      StageKeepsStream(w.log, x, s, ReadyAt(w, stream, t, s));
    }
    forall c
      ensures Breakdown(v, c) == Time(v.log, OfCategory(c))
    {
      TimeAppend(w.log, x, OfCategory(c));
    }
    TimeAppend(w.log, x, All);
    StageKeepsOrder(w.log, x, t);
    StageUpTo(w, v, t, x.finish);
    forall s | s != stream
      ensures Ready(v, s) <= v.end
    {
      assert Ready(w, s) <= w.end;
    }
  }

  lemma StageUpTo(w: World, v: World, t: real, finish: real)
    requires UpTo(w, Max(w.end, t)) && v.end == w.end && t <= finish
    requires forall r, y :: y in Inflight(v, r) ==> y == finish || y in Inflight(w, r)
    ensures UpTo(v, Max(v.end, finish))
  {
    hide Inflight;
  }

  lemma StageShape(caps: Caps, w: World, stream: int, t: real, st: Stage)
    requires Cap(caps, st.resource) >= 1
    ensures var v, x := RunStage(caps, w, stream, t, st), Place(caps, w, stream, t, st);
            && v.log == w.log + [x] && v.end == w.end && v.ready == w.ready
            && v.breakdown == w.breakdown[st.category := Breakdown(w, st.category) + st.duration]
            && x.stream == stream && x.category == st.category && x.resource == st.resource
            && x.finish == x.start + st.duration
            && forall c :: Breakdown(v, c) == Breakdown(w, c) + if c == st.category then st.duration else 0.0
  {}

  lemma StreamReady(w: World, stream: int, t: real)
    requires StreamOk(w.log, stream, ReadyAt(w, stream, t, stream))
    ensures 0.0 <= t <= Time(w.log, All)
    ensures forall i :: 0 <= i < |w.log| && w.log[i].stream == stream ==> w.log[i].finish <= t
  {}

  /** No start lies beyond the work done so far. */
  lemma StageBounds(w: World, stream: int, t: real, x: Slot, st: Stage)
    requires UpTo(w, Max(w.end, t)) && w.end <= Time(w.log, All) && t <= Time(w.log, All)
    requires x.start == t || x.start in Inflight(w, st.resource)
    ensures x.start <= Time(w.log, All)
  {}

  lemma StageKeepsOrder(log: seq<Slot>, x: Slot, t: real)
    requires InOrder(log) && 0.0 <= t <= x.start <= x.finish
    requires forall i :: 0 <= i < |log| && log[i].stream == x.stream ==> log[i].finish <= t
    ensures InOrder(log + [x])
  {}

  lemma {:induction false} StagesKeepMid(caps: Caps, w: World, stream: int, t0: real, stages: seq<Stage>)
    requires Mid(caps, w, stream, t0) && NonNegative(stages)
    ensures var (v, t) := RunStages(caps, w, stream, t0, stages);
            Mid(caps, v, stream, t) && t0 <= t && v.ready == w.ready && v.end == w.end
  {
    hide Mid, RunStage, Place;
    assert CapsOk(caps) by { MidCaps(caps, w, stream, t0); }
    if stages != [] {
      var n := |stages| - 1;
      StagesKeepMid(caps, w, stream, t0, stages[..n]);
      var (v, t) := RunStages(caps, w, stream, t0, stages[..n]);
      StageKeepsMid(caps, v, stream, t, stages[n]);
      StageShape(caps, v, stream, t, stages[n]);
    }
  }

  lemma MidCaps(caps: Caps, w: World, stream: int, t: real)
    requires Mid(caps, w, stream, t)
    ensures CapsOk(caps)
  {}

  lemma JobKeepsGood(caps: Caps, w: World, job: Job)
    requires Good(caps, w) && NonNegative(job.stages)
    ensures Good(caps, RunJob(caps, w, job))
  {
    hide ResourceOk, StreamOk, RunStages;
    var t0 := Ready(w, job.stream);
    assert Mid(caps, w, job.stream, t0);
    StagesKeepMid(caps, w, job.stream, t0, job.stages);
    var (v, t) := RunStages(caps, w, job.stream, t0, job.stages);
    JobEnd(caps, v, job.stream, t);
  }

  lemma JobEnd(caps: Caps, v: World, stream: int, t: real)
    requires Mid(caps, v, stream, t)
    ensures Good(caps, v.(ready := v.ready[stream := t], end := Max(v.end, t)))
  {
    hide Overlap, CountAbove, Sum, Time, Fits;
    var u := v.(ready := v.ready[stream := t], end := Max(v.end, t));
    forall r
      ensures ResourceOk(caps, u, r)
    {
      assert ResourceOk(caps, v, r);
    }
    forall s
      ensures StreamOk(u.log, s, Ready(u, s)) && Ready(u, s) <= u.end
    {
      assert StreamOk(v.log, s, ReadyAt(v, stream, t, s));
    }
    forall c
      ensures Breakdown(u, c) == Time(u.log, OfCategory(c))
    {
      assert Breakdown(v, c) == Time(v.log, OfCategory(c));
    }
    assert StreamOk(v.log, stream, ReadyAt(v, stream, t, stream));
    assert forall r :: Inflight(u, r) == Inflight(v, r);
  }

  /** The invariant holds after every run. */
  lemma {:induction false} RunIsGood(caps: Caps, jobs: seq<Job>)
    requires Runnable(caps, jobs)
    ensures Good(caps, RunJobs(caps, jobs))
  {
    hide RunJob;
    if jobs != [] {
      var n := |jobs| - 1;
      RunIsGood(caps, jobs[..n]);
      JobKeepsGood(caps, RunJobs(caps, jobs[..n]), jobs[n]);
    }
  }

  // ---------- Safety ----------

  /** At no instant do more stages hold a resource than its capacity. */
  lemma CapacityIsKept(caps: Caps, jobs: seq<Job>, r: ResourceName, t: real)
    requires Runnable(caps, jobs)
    ensures Overlap(RunJobs(caps, jobs).log, r, t) <= Cap(caps, r)
  {
    hide RunJobs;
    RunIsGood(caps, jobs);
    var w := RunJobs(caps, jobs);
    assert ResourceOk(caps, w, r);
    CountAboveBounds(Inflight(w, r), t);
    if t < 0.0 {
      NothingBeforeZero(w.log, r, t);
    }
  }

  lemma {:induction false} NothingBeforeZero(log: seq<Slot>, r: ResourceName, t: real)
    requires InOrder(log) && t < 0.0
    ensures Overlap(log, r, t) == 0
  {
    if log != [] {
      NothingBeforeZero(log[..|log| - 1], r, t);
    }
  }

  lemma StreamsStayInOrder(caps: Caps, jobs: seq<Job>)
    requires Runnable(caps, jobs)
    ensures InOrder(RunJobs(caps, jobs).log)
  {
    hide RunJobs;
    RunIsGood(caps, jobs);
  }

  // ---------- The work of the jobs ----------

  function StageWork(st: Stage, stream: int, m: Measure): real {
    if Matches(m, st.resource, stream, st.category) then st.duration else 0.0
  }

  function StagesWork(stages: seq<Stage>, stream: int, m: Measure): real {
    if stages == [] then 0.0
    else StagesWork(stages[..|stages| - 1], stream, m) + StageWork(stages[|stages| - 1], stream, m)
  }

  /** The durations of all matching stages of the jobs. */
  function Work(jobs: seq<Job>, m: Measure): real {
    if jobs == [] then 0.0
    else Work(jobs[..|jobs| - 1], m) + StagesWork(jobs[|jobs| - 1].stages, jobs[|jobs| - 1].stream, m)
  }

  lemma {:induction false} StagesTakeTheirTime(caps: Caps, w: World, stream: int, t: real, stages: seq<Stage>,
                                               m: Measure)
    requires CapsOk(caps)
    ensures Time(RunStages(caps, w, stream, t, stages).0.log, m) == Time(w.log, m) + StagesWork(stages, stream, m)
  {
    hide RunStage, Place;
    if stages != [] {
      var n := |stages| - 1;
      StagesTakeTheirTime(caps, w, stream, t, stages[..n], m);
      var (v, u) := RunStages(caps, w, stream, t, stages[..n]);
      StageShape(caps, v, stream, u, stages[n]);
      TimeAppend(v.log, Place(caps, v, stream, u, stages[n]), m);
    }
  }

  /** Every stage is scheduled once and takes its own duration. */
  lemma {:induction false} JobsTakeTheirTime(caps: Caps, jobs: seq<Job>, m: Measure)
    requires CapsOk(caps)
    ensures Time(RunJobs(caps, jobs).log, m) == Work(jobs, m)
  {
    hide RunStages;
    if jobs != [] {
      var n := |jobs| - 1;
      JobsTakeTheirTime(caps, jobs[..n], m);
      var w := RunJobs(caps, jobs[..n]);
      StagesTakeTheirTime(caps, w, jobs[n].stream, Ready(w, jobs[n].stream), jobs[n].stages, m);
    }
  }

  // ---------- Makespan and conservation ----------

  /** The makespan against the work of a stream, of a resource and of everything. */
  lemma MakespanBounds(caps: Caps, jobs: seq<Job>, s: int, r: ResourceName)
    requires Runnable(caps, jobs)
    ensures var w := RunJobs(caps, jobs);
            && Work(jobs, OfStream(s)) <= w.end <= Work(jobs, All)
            && Busy(w, r) == Work(jobs, OnResource(r)) <= Cap(caps, r) as real * w.end
  {
    hide RunJobs, Work, Good, Cap, Busy, Time, NonNegative;
    RunIsGood(caps, jobs);
    JobsTakeTheirTime(caps, jobs, OfStream(s));
    JobsTakeTheirTime(caps, jobs, OnResource(r));
    JobsTakeTheirTime(caps, jobs, All);
    GoodBounds(caps, RunJobs(caps, jobs), s, r);
  }

  lemma GoodBounds(caps: Caps, w: World, s: int, r: ResourceName)
    requires Good(caps, w)
    ensures Time(w.log, OfStream(s)) <= w.end <= Time(w.log, All)
    ensures Busy(w, r) == Time(w.log, OnResource(r)) <= Cap(caps, r) as real * w.end
  {
    hide Time, Overlap, CountAbove, Sum, InOrder;
    assert StreamOk(w.log, s, Ready(w, s)) && Ready(w, s) <= w.end;
    assert ResourceOk(caps, w, r);
    var f := Inflight(w, r);
    assert forall i :: 0 <= i < |f| ==> f[i] in f;
    SumBound(f, w.end, Cap(caps, r));
  }

  /** The utilization of a resource never exceeds its capacity. */
  lemma UtilizationBound(caps: Caps, jobs: seq<Job>, r: ResourceName)
    requires Runnable(caps, jobs) && RunJobs(caps, jobs).end > 0.0
    ensures Busy(RunJobs(caps, jobs), r) / RunJobs(caps, jobs).end <= Cap(caps, r) as real
  {
    hide RunJobs, Work;
    MakespanBounds(caps, jobs, 0, r);
    DivideBound(Busy(RunJobs(caps, jobs), r), RunJobs(caps, jobs).end, Cap(caps, r) as real);
  }

  lemma DivideBound(a: real, b: real, c: real)
    requires b > 0.0 && a <= c * b
    ensures a / b <= c
  {}

  function CommsUs(w: World): real {
    Breakdown(w, CpuCryptoTime) + Breakdown(w, SwiotlbTime) + Breakdown(w, PcieH2DTime)
    + Breakdown(w, PcieD2HTime) + Breakdown(w, GpuCryptoTime)
  }

  function ComputeUs(w: World): real {
    Breakdown(w, GpuComputeTime)
  }

  function TotalBusy(w: World): real {
    Busy(w, CpuCrypto) + Busy(w, SwiotlbCopy) + Busy(w, PcieH2D) + Busy(w, PcieD2H)
    + Busy(w, GpuCryptoH2D) + Busy(w, GpuCryptoD2H) + Busy(w, GpuCompute)
  }

  /** A slot is on one resource and in one category. */
  lemma SlotSplits(x: Slot)
    ensures SlotTime(x, All)
         == SlotTime(x, OnResource(CpuCrypto)) + SlotTime(x, OnResource(SwiotlbCopy)) + SlotTime(x, OnResource(PcieH2D))
            + SlotTime(x, OnResource(PcieD2H)) + SlotTime(x, OnResource(GpuCryptoH2D))
            + SlotTime(x, OnResource(GpuCryptoD2H)) + SlotTime(x, OnResource(GpuCompute))
         == SlotTime(x, OfCategory(CpuCryptoTime)) + SlotTime(x, OfCategory(SwiotlbTime))
            + SlotTime(x, OfCategory(PcieH2DTime)) + SlotTime(x, OfCategory(PcieD2HTime))
            + SlotTime(x, OfCategory(GpuCryptoTime)) + SlotTime(x, OfCategory(GpuComputeTime))
  {}

  lemma {:induction false} TimeSplits(log: seq<Slot>)
    ensures Time(log, All)
         == Time(log, OnResource(CpuCrypto)) + Time(log, OnResource(SwiotlbCopy)) + Time(log, OnResource(PcieH2D))
            + Time(log, OnResource(PcieD2H)) + Time(log, OnResource(GpuCryptoH2D))
            + Time(log, OnResource(GpuCryptoD2H)) + Time(log, OnResource(GpuCompute))
         == Time(log, OfCategory(CpuCryptoTime)) + Time(log, OfCategory(SwiotlbTime))
            + Time(log, OfCategory(PcieH2DTime)) + Time(log, OfCategory(PcieD2HTime))
            + Time(log, OfCategory(GpuCryptoTime)) + Time(log, OfCategory(GpuComputeTime))
  {
    if log != [] {
      hide SlotTime;
      TimeSplits(log[..|log| - 1]);
      SlotSplits(log[|log| - 1]);
    }
  }

  /** Busy time, breakdown and the work handed in are the same time, counted three ways. */
  lemma TimeIsConserved(caps: Caps, jobs: seq<Job>)
    requires Runnable(caps, jobs)
    ensures var w := RunJobs(caps, jobs); TotalBusy(w) == CommsUs(w) + ComputeUs(w) == Work(jobs, All)
  {
    hide RunJobs, Work, Time;
    var w := RunJobs(caps, jobs);
    RunIsGood(caps, jobs);
    JobsTakeTheirTime(caps, jobs, All);
    TimeSplits(w.log);
    assert ResourceOk(caps, w, CpuCrypto) && ResourceOk(caps, w, SwiotlbCopy) && ResourceOk(caps, w, PcieH2D);
    assert ResourceOk(caps, w, PcieD2H) && ResourceOk(caps, w, GpuCryptoH2D) && ResourceOk(caps, w, GpuCryptoD2H);
    assert ResourceOk(caps, w, GpuCompute);
  }

  // ---------- Monotonicity ----------

  /** At every instant the first run has at least as many free units as the second. */
  ghost predicate Freer(cap: nat, f: seq<real>, cap': nat, f': seq<real>) {
    forall t :: t >= 0.0 ==> CountAbove(f, t) + cap' <= CountAbove(f', t) + cap
  }

  lemma StartMonotone(cap: nat, f: seq<real>, now: real, cap': nat, f': seq<real>, now': real)
    requires Fits(cap, f) && Fits(cap', f') && Freer(cap, f, cap', f') && 0.0 <= now <= now'
    ensures StartTime(cap, f, now) <= StartTime(cap', f', now')
  {
    var t := StartTime(cap', f', now');
    StartsAfter(cap, f, now, t);
    StartsAfter(cap', f', now', t);
    CountAboveBounds(f', t);
  }

  lemma AfterMonotone(cap: nat, f: seq<real>, now: real, finish: real,
                      cap': nat, f': seq<real>, now': real, finish': real)
    requires Fits(cap, f) && Fits(cap', f') && Freer(cap, f, cap', f')
    requires StartTime(cap, f, now) <= finish && StartTime(cap', f', now') <= finish'
    requires cap' <= cap && finish <= finish'
    ensures Freer(cap, After(cap, f, finish), cap', After(cap', f', finish'))
  {
    forall t | t >= 0.0
      ensures CountAbove(After(cap, f, finish), t) + cap' <= CountAbove(After(cap', f', finish'), t) + cap
    {
      CountAfter(cap, f, now, finish, t);
      CountAfter(cap', f', now', finish', t);
      CountAboveBounds(f, t);
      CountAboveBounds(f', t);
    }
  }

  /** The slots of the first run, one by one, neither start nor finish later. */
  ghost predicate Earlier(a: seq<Slot>, b: seq<Slot>) {
    |a| == |b| && forall i :: 0 <= i < |a| ==> a[i].start <= b[i].start && a[i].finish <= b[i].finish
  }

  /** The first run is ahead of the second, whose stream g(s) takes in stream s of the first. */
  ghost predicate Ahead(caps: Caps, w: World, caps': Caps, w': World, g: int -> int) {
    && (forall r :: Cap(caps', r) <= Cap(caps, r))
    && (forall r :: Freer(Cap(caps, r), Inflight(w, r), Cap(caps', r), Inflight(w', r)))
    && (forall s: int :: Ready(w, s) <= Ready(w', g(s)))
    && w.end <= w'.end && Earlier(w.log, w'.log)
  }

  lemma StageMonotone(caps: Caps, w: World, t: real, st: Stage, caps': Caps, w': World, t': real, st': Stage,
                      stream: int, g: int -> int)
    requires Mid(caps, w, stream, t) && Mid(caps', w', g(stream), t') && Ahead(caps, w, caps', w', g) && t <= t'
    requires st.resource == st'.resource && 0.0 <= st.duration <= st'.duration
    ensures Ahead(caps, RunStage(caps, w, stream, t, st), caps', RunStage(caps', w', g(stream), t', st'), g)
    ensures Place(caps, w, stream, t, st).finish <= Place(caps', w', g(stream), t', st').finish
  {
    hide CountAbove, Overlap, Sum, Time, After, StartTime, UpTo, InOrder, Freer, Fits, Push;
    var r := st.resource;
    var v, v' := RunStage(caps, w, stream, t, st), RunStage(caps', w', g(stream), t', st');
    var x, x' := Place(caps, w, stream, t, st), Place(caps', w', g(stream), t', st');
    assert ResourceOk(caps, w, r) && ResourceOk(caps', w', r);
    StreamReady(w, stream, t);
    var cap, cap' := Cap(caps, r), Cap(caps', r);
    StartMonotone(cap, Inflight(w, r), t, cap', Inflight(w', r), t');
    AfterMonotone(cap, Inflight(w, r), t, x.finish, cap', Inflight(w', r), t', x'.finish);
    forall q
      ensures Freer(Cap(caps, q), Inflight(v, q), Cap(caps', q), Inflight(v', q))
    {
      assert Freer(Cap(caps, q), Inflight(w, q), Cap(caps', q), Inflight(w', q));
    }
    forall s: int
      ensures Ready(v, s) <= Ready(v', g(s))
    {
      assert Ready(w, s) <= Ready(w', g(s));
    }
  }

  lemma {:induction false} StagesMonotone(caps: Caps, w: World, t0: real, stages: seq<Stage>,
                                          caps': Caps, w': World, t0': real, stages': seq<Stage>,
                                          stream: int, g: int -> int)
    requires Mid(caps, w, stream, t0) && Mid(caps', w', g(stream), t0') && Ahead(caps, w, caps', w', g) && t0 <= t0'
    requires NonNegative(stages) && NonNegative(stages') && NoSlower(stages, stages')
    ensures var (v, t) := RunStages(caps, w, stream, t0, stages);
            var (v', t') := RunStages(caps', w', g(stream), t0', stages');
            Ahead(caps, v, caps', v', g) && t <= t'
  {
    hide Mid, Ahead, RunStage, Place;
    MidCaps(caps, w, stream, t0);
    MidCaps(caps', w', g(stream), t0');
    if stages != [] {
      var n := |stages| - 1;
      StagesMonotone(caps, w, t0, stages[..n], caps', w', t0', stages'[..n], stream, g);
      StagesKeepMid(caps, w, stream, t0, stages[..n]);
      StagesKeepMid(caps', w', g(stream), t0', stages'[..n]);
      var (v, t) := RunStages(caps, w, stream, t0, stages[..n]);
      var (v', t') := RunStages(caps', w', g(stream), t0', stages'[..n]);
      StageMonotone(caps, v, t, stages[n], caps', v', t', stages'[n], stream, g);
    }
  }

  /** The same events in the same order, with no stage longer; streams of a may share one stream of b. */
  ghost predicate NoSlowerJobs(a: seq<Job>, b: seq<Job>, g: int -> int) {
    |a| == |b| && forall i :: 0 <= i < |a| ==> b[i].stream == g(a[i].stream) && NoSlower(a[i].stages, b[i].stages)
  }

  /**
   If the first run has no longer stages, no smaller capacities and at most more streams, then
   none of its stages starts or finishes later, and its makespan is no longer.
   */
  lemma {:induction false} RunMonotone(caps: Caps, jobs: seq<Job>, caps': Caps, jobs': seq<Job>, g: int -> int)
    requires Runnable(caps, jobs) && Runnable(caps', jobs') && NoSlowerJobs(jobs, jobs', g)
    requires forall r :: Cap(caps', r) <= Cap(caps, r)
    ensures Earlier(RunJobs(caps, jobs).log, RunJobs(caps', jobs').log)
    ensures RunJobs(caps, jobs).end <= RunJobs(caps', jobs').end
    ensures Ahead(caps, RunJobs(caps, jobs), caps', RunJobs(caps', jobs'), g)
  {
    if jobs == [] {
    } else {
      var n := |jobs| - 1;
      RunMonotone(caps, jobs[..n], caps', jobs'[..n], g);
      RunIsGood(caps, jobs[..n]);
      RunIsGood(caps', jobs'[..n]);
      JobMonotone(caps, RunJobs(caps, jobs[..n]), jobs[n], caps', RunJobs(caps', jobs'[..n]), jobs'[n], g);
    }
  }

  lemma JobMonotone(caps: Caps, w: World, job: Job, caps': Caps, w': World, job': Job, g: int -> int)
    requires Good(caps, w) && Good(caps', w') && Ahead(caps, w, caps', w', g)
    requires NonNegative(job.stages) && NonNegative(job'.stages)
    requires job'.stream == g(job.stream) && NoSlower(job.stages, job'.stages)
    ensures Ahead(caps, RunJob(caps, w, job), caps', RunJob(caps', w', job'), g)
  {
    hide ResourceOk, StreamOk, RunStages, Freer, Earlier, InOrder, UpTo, Time;
    var s, s' := job.stream, g(job.stream);
    assert Mid(caps, w, s, Ready(w, s)) && Mid(caps', w', s', Ready(w', s'));
    StagesMonotone(caps, w, Ready(w, s), job.stages, caps', w', Ready(w', s'), job'.stages, s, g);
    var (v, t) := RunStages(caps, w, s, Ready(w, s), job.stages);
    var (v', t') := RunStages(caps', w', s', Ready(w', s'), job'.stages);
    StagesKeepMid(caps', w', s', Ready(w', s'), job'.stages);
    JobEndAhead(caps, v, t, caps', v', t', s, g);
  }

  lemma JobEndAhead(caps: Caps, v: World, t: real, caps': Caps, v': World, t': real, s: int, g: int -> int)
    requires Ahead(caps, v, caps', v', g) && t <= t' && Ready(v', g(s)) <= t'
    ensures Ahead(caps, v.(ready := v.ready[s := t], end := Max(v.end, t)),
                  caps', v'.(ready := v'.ready[g(s) := t'], end := Max(v'.end, t')), g)
  {
    hide Freer, Earlier;
    var u := v.(ready := v.ready[s := t], end := Max(v.end, t));
    var u' := v'.(ready := v'.ready[g(s) := t'], end := Max(v'.end, t'));
    forall q: int
      ensures Ready(u, q) <= Ready(u', g(q))
    {
      assert Ready(v, q) <= Ready(v', g(q));
    }
    forall r
      ensures Freer(Cap(caps, r), Inflight(u, r), Cap(caps', r), Inflight(u', r))
    {
      assert Freer(Cap(caps, r), Inflight(v, r), Cap(caps', r), Inflight(v', r));
    }
  }
}
