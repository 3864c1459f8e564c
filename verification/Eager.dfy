/**
 Which schedule a run is: the only one that takes the stages in order and starts each of them
 at the first instant at which its stream and a unit of its resource are free.
 */
module Eager {
  import opened Resources
  import opened Pipeline
  import opened Schedule

  // ---------- The plan ----------

  /** A stage of an event in a stream. */
  datatype Task = Task(stage: Stage, stream: int)

  function TasksOf(job: Job): seq<Task> {
    seq(|job.stages|, i requires 0 <= i < |job.stages| => Task(job.stages[i], job.stream))
  }

  /** The stages of all events, event by event. */
  function Plan(jobs: seq<Job>): seq<Task> {
    if jobs == [] then [] else Plan(jobs[..|jobs| - 1]) + TasksOf(jobs[|jobs| - 1])
  }

  function TaskOf(x: Slot): Task {
    Task(Stage(x.resource, x.finish - x.start, x.category), x.stream)
  }

  /** What a schedule has done. */
  function Done(log: seq<Slot>): (tasks: seq<Task>)
    ensures |tasks| == |log|
  {
    seq(|log|, i requires 0 <= i < |log| => TaskOf(log[i]))
  }

  lemma DoneAppend(log: seq<Slot>, x: Slot)
    ensures Done(log + [x]) == Done(log) + [TaskOf(x)]
  {}

  lemma {:induction false} StagesAreDone(caps: Caps, w: World, job: Job, t0: real, n: nat)
    requires CapsOk(caps) && n <= |job.stages|
    ensures Done(RunStages(caps, w, job.stream, t0, job.stages[..n]).0.log) == Done(w.log) + TasksOf(job)[..n]
  {
    hide Done, RunStage, Place;
    if n > 0 {
      StagesAreDone(caps, w, job, t0, n - 1);
      var stages := job.stages[..n];
      assert stages[..n - 1] == job.stages[..n - 1];
      var (v, t) := RunStages(caps, w, job.stream, t0, stages[..n - 1]);
      StageShape(caps, v, job.stream, t, stages[n - 1]);
      DoneAppend(v.log, Place(caps, v, job.stream, t, stages[n - 1]));
      assert TasksOf(job)[..n] == TasksOf(job)[..n - 1] + [Task(stages[n - 1], job.stream)];
    } else {
      assert job.stages[..0] == [];
    }
  }

  /** Every stage is done exactly once, on its resource, for its duration, in the order of the events. */
  lemma {:induction false} PlanIsDone(caps: Caps, jobs: seq<Job>)
    requires CapsOk(caps)
    ensures Done(RunJobs(caps, jobs).log) == Plan(jobs)
  {
    hide RunStages;
    if jobs != [] {
      var n := |jobs| - 1;
      PlanIsDone(caps, jobs[..n]);
      var w, job := RunJobs(caps, jobs[..n]), jobs[n];
      StagesAreDone(caps, w, job, Ready(w, job.stream), |job.stages|);
      assert job.stages[..|job.stages|] == job.stages;
    }
  }

  // ---------- When a stage starts ----------

  /** When the last slot of stream s is over. */
  function StreamFree(log: seq<Slot>, s: int): real {
    if log == [] then 0.0
    else if log[|log| - 1].stream == s then log[|log| - 1].finish
    else StreamFree(log[..|log| - 1], s)
  }

  /** How many slots of resource r finish after t. */
  function FinishAfter(log: seq<Slot>, r: ResourceName, t: real): nat {
    if log == [] then 0
    else
      var x := log[|log| - 1];
      FinishAfter(log[..|log| - 1], r, t) + if x.resource == r && x.finish > t then 1 else 0
  }

  /** At t, stream s is busy for longer or all units of r are promised for longer. */
  predicate Blocked(caps: Caps, before: seq<Slot>, s: int, r: ResourceName, t: real) {
    StreamFree(before, s) > t || FinishAfter(before, r, t) >= Cap(caps, r)
  }

  /** x has not started by t exactly when the slots before it block it at t. */
  ghost predicate StartsOnTime(caps: Caps, before: seq<Slot>, x: Slot) {
    forall t: real :: x.start > t <==> Blocked(caps, before, x.stream, x.resource, t)
  }

  ghost predicate OnTime(caps: Caps, log: seq<Slot>) {
    forall i :: 0 <= i < |log| ==> StartsOnTime(caps, log[..i], log[i])
  }

  lemma FreeAppend(log: seq<Slot>, x: Slot, s: int, r: ResourceName, t: real)
    ensures StreamFree(log + [x], s) == if x.stream == s then x.finish else StreamFree(log, s)
    ensures FinishAfter(log + [x], r, t) == FinishAfter(log, r, t) + if x.resource == r && x.finish > t then 1 else 0
  {
    assert (log + [x])[..|log|] == log;
  }

  lemma OnTimeAppend(caps: Caps, log: seq<Slot>, x: Slot)
    requires OnTime(caps, log) && StartsOnTime(caps, log, x)
    ensures OnTime(caps, log + [x])
  {
    hide StartsOnTime;
    var all := log + [x];
    forall i | 0 <= i < |all|
      ensures StartsOnTime(caps, all[..i], all[i])
    {
      assert all[..i] == log[..i];
      assert i == |log| ==> log[..i] == log;
    }
  }

  function AtMost(n: nat, cap: nat): nat {
    if n > cap then cap else n
  }

  /** The heap of a resource is what is left, up to the capacity, of all slots on it. */
  ghost predicate HeapIs(caps: Caps, w: World, r: ResourceName) {
    forall t: real :: CountAbove(Inflight(w, r), t) == AtMost(FinishAfter(w.log, r, t), Cap(caps, r))
  }

  /** With one stream in progress at time t, the world's books agree with its log. */
  ghost predicate Booked(caps: Caps, w: World, stream: int, t: real) {
    && (forall s :: ReadyAt(w, stream, t, s) == StreamFree(w.log, s))
    && (forall r :: HeapIs(caps, w, r))
    && OnTime(caps, w.log)
  }

  lemma PlacedOnTime(caps: Caps, w: World, stream: int, t: real, st: Stage)
    requires CapsOk(caps) && ResourceOk(caps, w, st.resource) && HeapIs(caps, w, st.resource)
    requires t == StreamFree(w.log, stream)
    ensures StartsOnTime(caps, w.log, Place(caps, w, stream, t, st))
  {
    hide CountAbove, FinishAfter, StreamFree, Overlap, Time, Sum;
    var x, cap, f := Place(caps, w, stream, t, st), Cap(caps, st.resource), Inflight(w, st.resource);
    forall u: real
      ensures x.start > u <==> Blocked(caps, w.log, stream, st.resource, u)
    {
      StartsAfter(cap, f, t, u);
    }
  }

  lemma StageKeepsHeap(caps: Caps, w: World, stream: int, t: real, st: Stage, r: ResourceName)
    requires CapsOk(caps) && ResourceOk(caps, w, st.resource) && HeapIs(caps, w, r) && st.duration >= 0.0
    ensures HeapIs(caps, RunStage(caps, w, stream, t, st), r)
  {
    hide CountAbove, FinishAfter, StreamFree, Overlap, Time, Sum, After, StartTime, Push;
    var v, x := RunStage(caps, w, stream, t, st), Place(caps, w, stream, t, st);
    forall u: real
      ensures CountAbove(Inflight(v, r), u) == AtMost(FinishAfter(v.log, r, u), Cap(caps, r))
    {
      FreeAppend(w.log, x, stream, r, u);
      if r == st.resource {
        CountAfter(Cap(caps, r), Inflight(w, r), t, x.finish, u);
      }
    }
  }

  lemma StageKeepsBooks(caps: Caps, w: World, stream: int, t: real, st: Stage)
    requires Mid(caps, w, stream, t) && Booked(caps, w, stream, t) && st.duration >= 0.0
    ensures Booked(caps, RunStage(caps, w, stream, t, st), stream, Place(caps, w, stream, t, st).finish)
  {
    hide ResourceOk, StreamOk, RunStage, Place, HeapIs, OnTime, StartsOnTime, StreamFree, UpTo, InOrder, Time;
    var v, x := RunStage(caps, w, stream, t, st), Place(caps, w, stream, t, st);
    StageShape(caps, w, stream, t, st);
    assert ResourceOk(caps, w, st.resource) && HeapIs(caps, w, st.resource);
    assert ReadyAt(w, stream, t, stream) == StreamFree(w.log, stream);
    PlacedOnTime(caps, w, stream, t, st);
    OnTimeAppend(caps, w.log, x);
    forall r
      ensures HeapIs(caps, v, r)
    {
      StageKeepsHeap(caps, w, stream, t, st, r);
    }
    forall s
      ensures ReadyAt(v, stream, x.finish, s) == StreamFree(v.log, s)
    {
      assert ReadyAt(w, stream, t, s) == StreamFree(w.log, s);
      FreeAppend(w.log, x, s, st.resource, 0.0);
    }
  }

  lemma {:induction false} StagesKeepBooks(caps: Caps, w: World, stream: int, t0: real, stages: seq<Stage>)
    requires Mid(caps, w, stream, t0) && Booked(caps, w, stream, t0) && NonNegative(stages)
    ensures CapsOk(caps)
    ensures var (v, t) := RunStages(caps, w, stream, t0, stages); Booked(caps, v, stream, t)
  {
    hide Mid, Booked, RunStage, Place;
    MidCaps(caps, w, stream, t0);
    if stages != [] {
      var n := |stages| - 1;
      StagesKeepBooks(caps, w, stream, t0, stages[..n]);
      StagesKeepMid(caps, w, stream, t0, stages[..n]);
      var (v, t) := RunStages(caps, w, stream, t0, stages[..n]);
      StageKeepsBooks(caps, v, stream, t, stages[n]);
    }
  }

  /** The books between two events. */
  ghost predicate BooksOk(caps: Caps, w: World) {
    && (forall s :: Ready(w, s) == StreamFree(w.log, s))
    && (forall r :: HeapIs(caps, w, r))
    && OnTime(caps, w.log)
  }

  lemma JobKeepsBooks(caps: Caps, w: World, job: Job)
    requires Good(caps, w) && BooksOk(caps, w) && NonNegative(job.stages)
    ensures BooksOk(caps, RunJob(caps, w, job))
  {
    hide ResourceOk, StreamOk, RunStages, CountAbove, FinishAfter, OnTime, StreamFree, InOrder, UpTo, Time;
    var t0 := Ready(w, job.stream);
    assert Mid(caps, w, job.stream, t0) && Booked(caps, w, job.stream, t0);
    StagesKeepBooks(caps, w, job.stream, t0, job.stages);
    var (v, t) := RunStages(caps, w, job.stream, t0, job.stages);
    var u := RunJob(caps, w, job);
    forall s
      ensures Ready(u, s) == StreamFree(u.log, s)
    {
      assert ReadyAt(v, job.stream, t, s) == StreamFree(v.log, s);
    }
    forall r
      ensures HeapIs(caps, u, r)
    {
      assert HeapIs(caps, v, r) && Inflight(u, r) == Inflight(v, r);
    }
  }

  lemma {:induction false} RunIsBooked(caps: Caps, jobs: seq<Job>)
    requires Runnable(caps, jobs)
    ensures BooksOk(caps, RunJobs(caps, jobs))
  {
    hide RunJob;
    if jobs != [] {
      var n := |jobs| - 1;
      RunIsBooked(caps, jobs[..n]);
      RunIsGood(caps, jobs[..n]);
      JobKeepsBooks(caps, RunJobs(caps, jobs[..n]), jobs[n]);
    } else {
      assert BooksOk(caps, START);
    }
  }

  // ---------- Main results ----------

  /** The same tasks, each started on time, have the same start and finish times. */
  lemma {:induction false} OneSchedule(caps: Caps, a: seq<Slot>, b: seq<Slot>)
    requires OnTime(caps, a) && OnTime(caps, b) && Done(a) == Done(b)
    ensures a == b
  {
    hide StreamFree, FinishAfter;
    assert |a| == |Done(a)| == |b|;
    if a != [] {
      var n := |a| - 1;
      PrefixOnTime(caps, a, n);
      PrefixOnTime(caps, b, n);
      assert Done(a[..n]) == Done(a)[..n] && Done(b[..n]) == Done(b)[..n];
      OneSchedule(caps, a[..n], b[..n]);
      assert Done(a)[n] == TaskOf(a[n]) && Done(b)[n] == TaskOf(b[n]);
      SameStart(caps, a[..n], a[n], b[n]);
      assert a == a[..n] + [a[n]] && b == b[..n] + [b[n]];
    }
  }

  lemma PrefixOnTime(caps: Caps, log: seq<Slot>, n: nat)
    requires OnTime(caps, log) && n <= |log|
    ensures OnTime(caps, log[..n])
  {
    hide StartsOnTime;
    forall i | 0 <= i < n
      ensures StartsOnTime(caps, log[..n][..i], log[..n][i])
    {
      assert log[..n][..i] == log[..i];
    }
  }

  lemma SameStart(caps: Caps, before: seq<Slot>, x: Slot, y: Slot)
    requires StartsOnTime(caps, before, x) && StartsOnTime(caps, before, y)
    requires x.stream == y.stream && x.resource == y.resource
    ensures x.start == y.start
  {
    hide Blocked;
    assert !Blocked(caps, before, x.stream, x.resource, x.start);
    assert !Blocked(caps, before, x.stream, x.resource, y.start);
  }

  /**
   A list of slots is the run if and only if it does every stage of the events in order, and
   starts each as soon as its stream and its resource allow.
   */
  lemma RunIff(caps: Caps, jobs: seq<Job>, log: seq<Slot>)
    requires Runnable(caps, jobs)
    ensures log == RunJobs(caps, jobs).log <==> Done(log) == Plan(jobs) && OnTime(caps, log)
  {
    hide RunJobs, Plan, Done, OnTime;
    PlanIsDone(caps, jobs);
    RunIsBooked(caps, jobs);
    if Done(log) == Plan(jobs) && OnTime(caps, log) {
      OneSchedule(caps, log, RunJobs(caps, jobs).log);
    }
  }

  /** No stage waits without need: until it starts, all configured units are promised to earlier stages. */
  lemma NoIdleWaiting(caps: Caps, jobs: seq<Job>, i: nat, t: real)
    requires Runnable(caps, jobs) && i < |RunJobs(caps, jobs).log|
    ensures var log, r := RunJobs(caps, jobs).log, RunJobs(caps, jobs).log[i].resource;
      var ready, units := StreamFree(log[..i], log[i].stream), if r in caps then caps[r] else 1;
      log[i].start >= ready && (ready <= t < log[i].start ==> FinishAfter(log[..i], r, t) >= units)
  {
    hide RunJobs, StreamFree, FinishAfter;
    RunIsBooked(caps, jobs);
    var log := RunJobs(caps, jobs).log;
    assert StartsOnTime(caps, log[..i], log[i]);
    assert !Blocked(caps, log[..i], log[i].stream, log[i].resource, log[i].start);
    assert log[i].start > t <==> Blocked(caps, log[..i], log[i].stream, log[i].resource, t);
  }

  /** The configured capacity is kept, and a resource without one serves one stage at a time. */
  lemma ConfiguredCapacity(caps: Caps, jobs: seq<Job>, r: ResourceName, t: real)
    requires Runnable(caps, jobs)
    ensures Overlap(RunJobs(caps, jobs).log, r, t) <= if r in caps then caps[r] else 1
  {
    hide RunJobs;
    CapacityIsKept(caps, jobs, r, t);
  }

  // ---------- The makespan ----------

  ghost predicate Attained(log: seq<Slot>, e: real) {
    e == 0.0 || exists i :: 0 <= i < |log| && log[i].finish == e
  }

  lemma {:induction false} StreamFreeAttained(log: seq<Slot>, s: int)
    ensures Attained(log, StreamFree(log, s))
  {
    if log != [] {
      var n := |log| - 1;
      StreamFreeAttained(log[..n], s);
      AttainedLater(log[..n], log, StreamFree(log[..n], s));
    }
  }

  lemma AttainedLater(a: seq<Slot>, b: seq<Slot>, e: real)
    requires a <= b && Attained(a, e)
    ensures Attained(b, e)
  {
    if e != 0.0 {
      var i :| 0 <= i < |a| && a[i].finish == e;
      assert b[i].finish == e;
    }
  }

  lemma {:induction false} StagesExtend(caps: Caps, w: World, stream: int, t0: real, stages: seq<Stage>)
    requires CapsOk(caps)
    ensures w.log <= RunStages(caps, w, stream, t0, stages).0.log
    ensures RunStages(caps, w, stream, t0, stages).0.end == w.end
  {
    hide RunStage, Place;
    if stages != [] {
      var n := |stages| - 1;
      StagesExtend(caps, w, stream, t0, stages[..n]);
      var (v, t) := RunStages(caps, w, stream, t0, stages[..n]);
      StageShape(caps, v, stream, t, stages[n]);
    }
  }

  lemma {:induction false} EndAttained(caps: Caps, jobs: seq<Job>)
    requires Runnable(caps, jobs)
    ensures Attained(RunJobs(caps, jobs).log, RunJobs(caps, jobs).end)
  {
    hide RunStages, Attained, StreamFree, Good, BooksOk;
    if jobs == [] {
      assert Attained([], 0.0) by { StreamFreeAttained([], 0); StartsFree(0); }
    } else {
      var n := |jobs| - 1;
      EndAttained(caps, jobs[..n]);
      var w, job, u := RunJobs(caps, jobs[..n]), jobs[n], RunJobs(caps, jobs);
      StagesExtend(caps, w, job.stream, Ready(w, job.stream), job.stages);
      AttainedLater(w.log, u.log, w.end);
      RunIsBooked(caps, jobs);
      assert Ready(u, job.stream) == StreamFree(u.log, job.stream) by { BooksReady(caps, u, job.stream); }
      StreamFreeAttained(u.log, job.stream);
    }
  }

  lemma StartsFree(s: int)
    ensures StreamFree([], s) == 0.0
  {}

  lemma BooksReady(caps: Caps, w: World, s: int)
    requires BooksOk(caps, w)
    ensures Ready(w, s) == StreamFree(w.log, s)
  {}

  /** The makespan is the latest finish, or zero without one. */
  lemma EndIsLatest(caps: Caps, jobs: seq<Job>)
    requires Runnable(caps, jobs)
    ensures var w := RunJobs(caps, jobs);
      && (forall i :: 0 <= i < |w.log| ==> w.log[i].finish <= w.end)
      && (w.end == 0.0 || exists i :: 0 <= i < |w.log| && w.log[i].finish == w.end)
  {
    hide RunJobs, ResourceOk, Time, InOrder, UpTo;
    RunIsGood(caps, jobs);
    EndAttained(caps, jobs);
    var w := RunJobs(caps, jobs);
    forall i | 0 <= i < |w.log|
      ensures w.log[i].finish <= w.end
    {
      assert StreamOk(w.log, w.log[i].stream, Ready(w, w.log[i].stream));
    }
  }
}
