/** The per-document reader/writer scheduler, as a transition system.

    Every block that the program runs under its mutex is one atomic step. The thread
    pool is the sequence of submitted and not yet finished tasks, in submission order;
    any of them may finish next. */
module Scheduler {

  type DocumentId = nat

  datatype Access = ReadOnly | Write

  datatype Task = Task(access: Access, body: nat)

  datatype DocumentQueue = DocumentQueue(runningWrite: bool, runningReads: int, queue: seq<Task>)

  /** A task handed to the pool. `position` is its rank among the tasks dispatched for its document. */
  datatype RunningTask = RunningTask(document: DocumentId, task: Task, position: nat, wasStillReady: bool)

  /** What an observer records of one document: the tasks scheduled, the tasks dispatched, and
      the positions of the finished writes in the order in which they finished. The finished
      writes are the document's contents: every other content is a fold over them. */
  datatype Trail = Trail(scheduled: seq<Task>, dispatched: seq<Task>, written: seq<nat>)

  /** `exited`: the dispatcher's thread has returned. */
  datatype State = State(
    queues: map<DocumentId, DocumentQueue>,
    ready: seq<DocumentId>,
    shutdown: bool,
    exited: bool,
    running: seq<RunningTask>,
    trails: map<DocumentId, Trail>)

  const IDLE := DocumentQueue(false, 0, [])
  const NO_TRAIL := Trail([], [], [])
  const INITIAL := State(map[], [], false, false, [], map[])

  predicate IsQueueReady(q: DocumentQueue) {
    q.queue != [] && !q.runningWrite && (q.queue[0].access.ReadOnly? || q.runningReads == 0)
  }

  predicate HasAnyTask(s: State) {
    exists d :: d in s.queues && s.queues[d].queue != []
  }

  function QueueOf(s: State, d: DocumentId): DocumentQueue {
    if d in s.queues then s.queues[d] else IDLE
  }

  function TrailOf(s: State, d: DocumentId): Trail {
    if d in s.trails then s.trails[d] else NO_TRAIL
  }

  // ----- The steps ---------------------------------------------------------------------

  function AfterSchedule(s: State, d: DocumentId, t: Task): State {
    var trail := TrailOf(s, d);
    var s1 := s.(trails := s.trails[d := trail.(scheduled := trail.scheduled + [t])]);
    if d !in s.queues then
      s1.(queues := s.queues[d := DocumentQueue(false, 0, [t])], ready := s.ready + [d])
    else
      var q := s.queues[d].(queue := s.queues[d].queue + [t]);
      s1.(queues := s.queues[d := q],
          ready := if |q.queue| == 1 && !q.runningWrite && q.runningReads == 0 then s.ready + [d] else s.ready)
  }

  /** The dispatcher runs and has something to extract: the front of its ready list and that document's front task. */
  predicate CanDispatch(s: State) {
    !s.exited && s.ready != [] && s.ready[0] in s.queues && s.queues[s.ready[0]].queue != []
  }

  /** The dispatcher leaves its loop, for good. */
  predicate CanExit(s: State) {
    !s.exited && s.shutdown && !HasAnyTask(s)
  }

  function Started(q: DocumentQueue, t: Task): DocumentQueue {
    if t.access.ReadOnly? then q.(runningReads := q.runningReads + 1) else q.(runningWrite := true)
  }

  function Ended(q: DocumentQueue, t: Task): DocumentQueue {
    if t.access.ReadOnly? then q.(runningReads := q.runningReads - 1) else q.(runningWrite := false)
  }

  function AfterDispatch(s: State): State
    requires CanDispatch(s)
  {
    var d := s.ready[0];
    var t := s.queues[d].queue[0];
    var q := Started(s.queues[d].(queue := s.queues[d].queue[1..]), t);
    var stillReady := IsQueueReady(q);
    var trail := TrailOf(s, d);
    s.(queues := s.queues[d := q],
       ready := if stillReady then s.ready[1..] + [d] else s.ready[1..],
       running := s.running + [RunningTask(d, t, |trail.dispatched|, stillReady)],
       trails := s.trails[d := trail.(dispatched := trail.dispatched + [t])])
  }

  predicate CanFinish(s: State, k: nat) {
    k < |s.running| && s.running[k].document in s.queues
  }

  function Without<T>(xs: seq<T>, k: nat): seq<T>
    requires k < |xs|
  {
    xs[..k] + xs[k + 1..]
  }

  function AfterFinish(s: State, k: nat): State
    requires CanFinish(s, k)
  {
    var r := s.running[k];
    var d := r.document;
    var q := Ended(s.queues[d], r.task);
    var trail := TrailOf(s, d);
    s.(queues := s.queues[d := q],
       ready := if !r.wasStillReady && q.queue != [] then s.ready + [d] else s.ready,
       running := Without(s.running, k),
       trails := s.trails[d := if r.task.access.Write? then trail.(written := trail.written + [r.position]) else trail])
  }

  // ----- What one document sees --------------------------------------------------------

  datatype View = View(known: bool, q: DocumentQueue, listed: nat, tasks: seq<RunningTask>, trail: Trail)

  function TasksOf(running: seq<RunningTask>, d: DocumentId): seq<RunningTask> {
    if running == [] then []
    else TasksOf(running[..|running| - 1], d) +
         if running[|running| - 1].document == d then [running[|running| - 1]] else []
  }

  function ViewOf(s: State, d: DocumentId): View {
    View(d in s.queues, QueueOf(s, d), multiset(s.ready)[d], TasksOf(s.running, d), TrailOf(s, d))
  }

  function ScheduleView(v: View, t: Task): View {
    var q := v.q.(queue := v.q.queue + [t]);
    var wakes := |q.queue| == 1 && !q.runningWrite && q.runningReads == 0;
    v.(known := true, q := q, listed := v.listed + if wakes then 1 else 0,
       trail := v.trail.(scheduled := v.trail.scheduled + [t]))
  }

  function DispatchView(v: View, d: DocumentId): View
    requires v.listed > 0 && v.q.queue != []
  {
    var t := v.q.queue[0];
    var q := Started(v.q.(queue := v.q.queue[1..]), t);
    v.(q := q, listed := v.listed - 1 + if IsQueueReady(q) then 1 else 0,
       tasks := v.tasks + [RunningTask(d, t, |v.trail.dispatched|, IsQueueReady(q))],
       trail := v.trail.(dispatched := v.trail.dispatched + [t]))
  }

  function FinishView(v: View, j: nat): View
    requires j < |v.tasks|
  {
    var r := v.tasks[j];
    var q := Ended(v.q, r.task);
    v.(q := q, listed := v.listed + if !r.wasStillReady && q.queue != [] then 1 else 0,
       tasks := Without(v.tasks, j),
       trail := if r.task.access.Write? then v.trail.(written := v.trail.written + [r.position]) else v.trail)
  }

  lemma {:induction false} TasksOfConcat(a: seq<RunningTask>, b: seq<RunningTask>, d: DocumentId)
    ensures TasksOf(a + b, d) == TasksOf(a, d) + TasksOf(b, d)
  {
    if b == [] {
      assert a + b == a;
    } else {
      assert (a + b)[..|a + b| - 1] == a + b[..|b| - 1];
      TasksOfConcat(a, b[..|b| - 1], d);
    }
  }

  lemma {:induction false} ViewAfterSchedule(s: State, d: DocumentId, t: Task, e: DocumentId)
    ensures ViewOf(AfterSchedule(s, d, t), e) == if e == d then ScheduleView(ViewOf(s, d), t) else ViewOf(s, e)
  {
  }

  lemma {:induction false} ViewAfterDispatch(s: State, e: DocumentId)
    requires CanDispatch(s)
    ensures ViewOf(s, s.ready[0]).listed > 0
    ensures ViewOf(AfterDispatch(s), e) == if e == s.ready[0] then DispatchView(ViewOf(s, e), e) else ViewOf(s, e)
  {
    assert s.ready == [s.ready[0]] + s.ready[1..];
    var s' := AfterDispatch(s);
    assert s'.running[..|s'.running| - 1] == s.running;
  }

  /** The rank, among the running tasks of its own document, of the k-th running task. */
  function RankOf(s: State, k: nat): (j: nat)
    requires k < |s.running|
    ensures j < |TasksOf(s.running, s.running[k].document)|
    ensures TasksOf(s.running, s.running[k].document)[j] == s.running[k]
  {
    var d := s.running[k].document;
    SplitAround(s.running, k, d);
    |TasksOf(s.running[..k], d)|
  }

  lemma {:induction false} SplitAround(running: seq<RunningTask>, k: nat, d: DocumentId)
    requires k < |running|
    ensures TasksOf(running, d) == TasksOf(running[..k], d) + TasksOf([running[k]], d) + TasksOf(running[k + 1..], d)
    ensures TasksOf(Without(running, k), d) == TasksOf(running[..k], d) + TasksOf(running[k + 1..], d)
  {
    assert running == running[..k] + running[k..] && running[k..] == [running[k]] + running[k + 1..];
    TasksOfConcat(running[..k], running[k..], d);
    TasksOfConcat([running[k]], running[k + 1..], d);
    TasksOfConcat(running[..k], running[k + 1..], d);
  }

  lemma {:induction false} TasksAfterFinish(s: State, k: nat, e: DocumentId)
    requires CanFinish(s, k)
    ensures TasksOf(Without(s.running, k), e) ==
            if e == s.running[k].document then Without(TasksOf(s.running, e), RankOf(s, k)) else TasksOf(s.running, e)
  {
    SplitAround(s.running, k, e);
    var before, after := TasksOf(s.running[..k], e), TasksOf(s.running[k + 1..], e);
    assert TasksOf([s.running[k]], e) == if e == s.running[k].document then [s.running[k]] else [] by {
      assert [s.running[k]][..0] == [];
    }
    if e == s.running[k].document {
      assert Without(before + [s.running[k]] + after, |before|) == before + after;
    }
  }

  lemma {:induction false} ViewAfterFinish(s: State, k: nat, e: DocumentId)
    requires CanFinish(s, k)
    ensures ViewOf(AfterFinish(s, k), e) ==
            if e == s.running[k].document then FinishView(ViewOf(s, e), RankOf(s, k)) else ViewOf(s, e)
  {
    hide TasksOf;
    TasksAfterFinish(s, k, e);
  }

  // ----- Invariants of one document ----------------------------------------------------

  predicate HoldsDuty(r: RunningTask) { !r.wasStillReady }

  predicate Reads(r: RunningTask) { r.task.access.ReadOnly? }

  function Count(p: RunningTask -> bool, tasks: seq<RunningTask>): nat {
    if tasks == [] then 0
    else Count(p, tasks[..|tasks| - 1]) + if p(tasks[|tasks| - 1]) then 1 else 0
  }

  /** How many holders the duty to continue with the document has: its entries in the ready
      list, and its running tasks that found the queue not ready when they were dispatched. */
  function Duty(v: View): nat {
    v.listed + Count(HoldsDuty, v.tasks)
  }

  /** Holds in every reachable state, whatever the order in which tasks finish. */
  ghost predicate Sound(v: View) {
    && (!v.known ==> v == View(false, IDLE, 0, [], NO_TRAIL))
    && v.trail.dispatched + v.q.queue == v.trail.scheduled
    && (v.listed > 0 ==> v.q.queue != [])
    && Duty(v) <= 1
    && v.q.runningReads == Count(Reads, v.tasks)
    && (v.q.runningWrite <==> exists i :: 0 <= i < |v.tasks| && v.tasks[i].task.access.Write?)
    && (forall i :: 0 <= i < |v.tasks| && v.tasks[i].task.access.Write? ==> HoldsDuty(v.tasks[i]))
    && (forall i :: 0 <= i < |v.tasks| - 1 ==> !HoldsDuty(v.tasks[i]))
    && (forall i :: 0 <= i < |v.tasks| ==>
          v.tasks[i].position < |v.trail.dispatched| && v.trail.dispatched[v.tasks[i].position] == v.tasks[i].task)
  }

  function WritePositions(ts: seq<Task>): seq<nat> {
    if ts == [] then []
    else WritePositions(ts[..|ts| - 1]) + if ts[|ts| - 1].access.Write? then [|ts| - 1] else []
  }

  predicate NoWriteFrom(ts: seq<Task>, p: nat) {
    forall i :: p <= i < |ts| ==> ts[i].access.ReadOnly?
  }

  /** What the scheduler is for. Outstanding work has a duty holder, a listed document can be
      served, a write runs alone, and the finished writes are exactly the dispatched ones. */
  ghost predicate Serial(v: View) {
    && Sound(v)
    && (v.q.queue != [] || v.tasks != [] ==> Duty(v) == 1)
    && (v.listed > 0 ==> IsQueueReady(v.q))
    && (v.q.runningWrite ==> |v.tasks| == 1 && v.tasks[0].position == |v.trail.dispatched| - 1)
    && v.trail.written == WritePositions(v.trail.dispatched[..|v.trail.dispatched| - if v.q.runningWrite then 1 else 0])
    && (forall i :: 0 <= i < |v.tasks| && Reads(v.tasks[i]) ==> NoWriteFrom(v.trail.dispatched, v.tasks[i].position))
  }

  lemma {:induction false} CountConcat(p: RunningTask -> bool, a: seq<RunningTask>, b: seq<RunningTask>)
    ensures Count(p, a + b) == Count(p, a) + Count(p, b)
  {
    if b == [] {
      assert a + b == a;
    } else {
      assert (a + b)[..|a + b| - 1] == a + b[..|b| - 1];
      CountConcat(p, a, b[..|b| - 1]);
    }
  }

  lemma {:induction false} CountWithout(p: RunningTask -> bool, tasks: seq<RunningTask>, j: nat)
    requires j < |tasks|
    ensures Count(p, tasks) == Count(p, Without(tasks, j)) + if p(tasks[j]) then 1 else 0
  {
    assert tasks == tasks[..j] + tasks[j..] && tasks[j..] == [tasks[j]] + tasks[j + 1..];
    CountConcat(p, tasks[..j], tasks[j..]);
    CountConcat(p, [tasks[j]], tasks[j + 1..]);
    CountConcat(p, tasks[..j], tasks[j + 1..]);
    CountAppend(p, [], tasks[j]);
    assert [] + [tasks[j]] == [tasks[j]];
  }

  lemma {:induction false} CountAppend(p: RunningTask -> bool, tasks: seq<RunningTask>, r: RunningTask)
    ensures Count(p, tasks + [r]) == Count(p, tasks) + if p(r) then 1 else 0
  {
    assert (tasks + [r])[..|tasks + [r]| - 1] == tasks;
  }

  lemma {:induction false} CountPositive(p: RunningTask -> bool, tasks: seq<RunningTask>, i: nat)
    requires i < |tasks| && p(tasks[i])
    ensures Count(p, tasks) > 0
  {
    CountWithout(p, tasks, i);
  }

  lemma {:induction false} CountZero(p: RunningTask -> bool, tasks: seq<RunningTask>)
    requires Count(p, tasks) == 0
    ensures forall i :: 0 <= i < |tasks| ==> !p(tasks[i])
  {
    forall i | 0 <= i < |tasks| ensures !p(tasks[i]) {
      if p(tasks[i]) { CountPositive(p, tasks, i); }
    }
  }

  lemma {:induction false} WritePositionsSkip(ts: seq<Task>, p: nat)
    requires p <= |ts| && NoWriteFrom(ts, p)
    ensures WritePositions(ts) == WritePositions(ts[..p])
  {
    if p < |ts| {
      var shorter := ts[..|ts| - 1];
      WritePositionsSkip(shorter, p);
      assert shorter[..p] == ts[..p];
    } else {
      assert ts[..p] == ts;
    }
  }

  // ----- Each step, seen by its document -----------------------------------------------

  lemma {:induction false} SomethingRuns(v: View)
    requires Sound(v) && v.tasks != []
    ensures v.q.runningWrite || v.q.runningReads > 0
  {
    if Reads(v.tasks[0]) {
      CountPositive(Reads, v.tasks, 0);
    }
  }

  lemma {:induction false} ScheduleKeepsSound(v: View, t: Task)
    requires Sound(v)
    ensures Sound(ScheduleView(v, t))
  {
    var v' := ScheduleView(v, t);
    assert v.trail.dispatched + v'.q.queue == (v.trail.dispatched + v.q.queue) + [t];
    if v.tasks != [] {
      SomethingRuns(v);
    }
  }

  lemma {:induction false} ScheduleKeepsSerial(v: View, t: Task)
    requires Serial(v)
    ensures Serial(ScheduleView(v, t))
  {
    ScheduleKeepsSound(v, t);
    if v.tasks != [] {
      SomethingRuns(v);
    }
  }

  lemma {:induction false} ListedMeansNoRunningDuty(v: View)
    requires Sound(v) && v.listed > 0
    ensures v.listed == 1 && Count(HoldsDuty, v.tasks) == 0 && !v.q.runningWrite
    ensures forall i :: 0 <= i < |v.tasks| ==> !HoldsDuty(v.tasks[i]) && Reads(v.tasks[i])
  {
    CountZero(HoldsDuty, v.tasks);
  }

  lemma {:induction false} DispatchKeepsSound(v: View, d: DocumentId)
    requires Sound(v) && v.listed > 0
    ensures Sound(DispatchView(v, d))
  {
    ListedMeansNoRunningDuty(v);
    var v' := DispatchView(v, d);
    var r := v'.tasks[|v.tasks|];
    CountAppend(HoldsDuty, v.tasks, r);
    CountAppend(Reads, v.tasks, r);
    assert v'.trail.dispatched + v'.q.queue == v.trail.dispatched + v.q.queue;
    assert r.task.access.Write? ==> v'.tasks[|v'.tasks| - 1].task.access.Write?;
  }

  lemma {:induction false} DispatchKeepsSerial(v: View, d: DocumentId)
    requires Serial(v) && v.listed > 0
    ensures Serial(DispatchView(v, d))
  {
    ListedMeansNoRunningDuty(v);
    DispatchKeepsSound(v, d);
    var v' := DispatchView(v, d);
    CountAppend(HoldsDuty, v.tasks, v'.tasks[|v.tasks|]);
    assert v.trail.dispatched[..|v.trail.dispatched|] == v.trail.dispatched;
    DispatchKeepsWritten(v, d);
    if v.tasks != [] {
      CountPositive(Reads, v.tasks, 0);
    }
  }

  lemma {:induction false} DispatchKeepsWritten(v: View, d: DocumentId)
    requires v.q.queue != [] && v.listed > 0 && !v.q.runningWrite
    requires v.trail.written == WritePositions(v.trail.dispatched)
    ensures var v' := DispatchView(v, d);
            var n := |v'.trail.dispatched|;
            v'.trail.written == WritePositions(v'.trail.dispatched[..n - if v'.q.runningWrite then 1 else 0])
  {
    var v' := DispatchView(v, d);
    var n := |v'.trail.dispatched|;
    assert v'.trail.dispatched[..n - 1] == v.trail.dispatched;
    assert v'.trail.dispatched[..n] == v'.trail.dispatched;
  }

  lemma {:induction false} FinishKeepsSound(v: View, j: nat)
    requires Sound(v) && j < |v.tasks|
    ensures Sound(FinishView(v, j))
    // The program asserts both of these when a task finishes.
    ensures Reads(v.tasks[j]) ==> v.q.runningReads > 0
    ensures !Reads(v.tasks[j]) ==> v.q.runningWrite
  {
    var v' := FinishView(v, j);
    CountWithout(HoldsDuty, v.tasks, j);
    CountWithout(Reads, v.tasks, j);
    var n := |v.tasks| - 1;
    assert forall i :: 0 <= i < n ==> v'.tasks[i] == v.tasks[if i < j then i else i + 1];
    if v.q.runningWrite {
      var i :| 0 <= i < |v.tasks| && v.tasks[i].task.access.Write?;
      assert i == n;
      if j < n { assert v'.tasks[n - 1] == v.tasks[n]; }
    }
  }

  /** When finishing the j-th running task is harmless: it does not hold the duty, or it is the
      last running task of its document, or the queue continues with a read. */
  predicate SafeFinish(v: View, j: nat)
    requires j < |v.tasks|
  {
    v.tasks[j].wasStillReady || |v.tasks| == 1 || (v.q.queue != [] && v.q.queue[0].access.ReadOnly?)
  }

  lemma {:induction false} SafeFinishKeepsSerial(v: View, j: nat)
    requires Serial(v) && j < |v.tasks| && SafeFinish(v, j)
    ensures Serial(FinishView(v, j))
  {
    FinishKeepsSound(v, j);
    CountWithout(HoldsDuty, v.tasks, j);
    if v.q.runningWrite {
      FinishOfWriteKeepsSerial(v, j);
    } else {
      var v' := FinishView(v, j);
      assert Reads(v.tasks[j]);
      forall i | 0 <= i < |v'.tasks| && Reads(v'.tasks[i])
        ensures NoWriteFrom(v'.trail.dispatched, v'.tasks[i].position)
      {
        assert v'.tasks[i] == v.tasks[if i < j then i else i + 1];
      }
    }
  }

  lemma {:induction false} FinishOfWriteKeepsSerial(v: View, j: nat)
    requires Serial(v) && v.q.runningWrite && j < |v.tasks|
    ensures Serial(FinishView(v, j))
  {
    FinishKeepsSound(v, j);
    CountWithout(HoldsDuty, v.tasks, j);
    var dispatched := v.trail.dispatched;
    var n := |dispatched|;
    assert dispatched[..n] == dispatched;
    assert WritePositions(dispatched) == WritePositions(dispatched[..n - 1]) + [n - 1];
  }

  /** The exact condition: a finish keeps the document serial if and only if it is safe. */
  lemma {:induction false} FinishKeepsSerialExactlyWhenSafe(v: View, j: nat)
    requires Serial(v) && j < |v.tasks|
    ensures Serial(FinishView(v, j)) <==> SafeFinish(v, j)
  {
    if SafeFinish(v, j) {
      SafeFinishKeepsSerial(v, j);
    } else {
      var v' := FinishView(v, j);
      CountWithout(HoldsDuty, v.tasks, j);
      FinishKeepsSound(v, j);
      if v.q.queue != [] {
        var i := if j == 0 then 1 else 0;
        assert v.tasks[i] in v'.tasks;
        assert v'.tasks[0] == v.tasks[i];
        assert Reads(v'.tasks[0]);
        CountPositive(Reads, v'.tasks, 0);
      }
    }
  }
}
