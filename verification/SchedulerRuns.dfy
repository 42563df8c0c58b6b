/** Runs of the scheduler: what they keep, when they are serial, what goes wrong in others, and how they end. */
module SchedulerRuns {

  import opened Scheduler

  datatype Step = Schedule(document: DocumentId, task: Task) | Dispatch | Finish(k: nat) | Shutdown | Exit

  predicate Enabled(s: State, step: Step) {
    match step
    case Schedule(_, _) => true
    case Dispatch => CanDispatch(s)
    case Finish(k) => CanFinish(s, k)
    case Shutdown => true
    case Exit => CanExit(s)
  }

  function After(s: State, step: Step): State
    requires Enabled(s, step)
  {
    match step
    case Schedule(d, t) => AfterSchedule(s, d, t)
    case Dispatch => AfterDispatch(s)
    case Finish(k) => AfterFinish(s, k)
    case Shutdown => s.(shutdown := true)
    case Exit => s.(exited := true)
  }

  predicate Safe(s: State, step: Step)
    requires Enabled(s, step)
  {
    step.Finish? ==> SafeFinish(ViewOf(s, s.running[step.k].document), RankOf(s, step.k))
  }

  /** `steps` is a run from `s`: each step is enabled where it is taken. */
  predicate Run(s: State, steps: seq<Step>)
    decreases |steps|
  {
    steps == [] || (Enabled(s, steps[0]) && Run(After(s, steps[0]), steps[1..]))
  }

  predicate SafeRun(s: State, steps: seq<Step>)
    decreases |steps|
  {
    steps == [] || (Enabled(s, steps[0]) && Safe(s, steps[0]) && SafeRun(After(s, steps[0]), steps[1..]))
  }

  function EndOf(s: State, steps: seq<Step>): State
    requires Run(s, steps)
    decreases |steps|
  {
    if steps == [] then s else EndOf(After(s, steps[0]), steps[1..])
  }

  ghost predicate AllSound(s: State) {
    forall d :: Sound(ViewOf(s, d))
  }

  ghost predicate AllSerial(s: State) {
    forall d :: Serial(ViewOf(s, d))
  }

  lemma {:induction false} InitiallySerial()
    ensures AllSerial(INITIAL)
  {
  }

  lemma {:induction false} StepKeepsSound(s: State, step: Step)
    requires AllSound(s) && Enabled(s, step)
    ensures AllSound(After(s, step))
  {
    hide Sound, TasksOf;
    forall e ensures Sound(ViewOf(After(s, step), e)) {
      assert Sound(ViewOf(s, e));
      match step
      case Schedule(d, t) =>
        ViewAfterSchedule(s, d, t, e);
        ScheduleKeepsSound(ViewOf(s, d), t);
      case Dispatch =>
        ViewAfterDispatch(s, e);
        DispatchKeepsSound(ViewOf(s, s.ready[0]), s.ready[0]);
      case Finish(k) =>
        ViewAfterFinish(s, k, e);
        FinishKeepsSound(ViewOf(s, s.running[k].document), RankOf(s, k));
      case Shutdown =>
        assert ViewOf(After(s, step), e) == ViewOf(s, e);
      case Exit =>
        assert ViewOf(After(s, step), e) == ViewOf(s, e);
    }
  }

  lemma {:induction false} SafeStepKeepsSerial(s: State, step: Step)
    requires AllSerial(s) && Enabled(s, step) && Safe(s, step)
    ensures AllSerial(After(s, step))
  {
    hide Serial, TasksOf;
    forall e ensures Serial(ViewOf(After(s, step), e)) {
      assert Serial(ViewOf(s, e));
      match step
      case Schedule(d, t) =>
        ViewAfterSchedule(s, d, t, e);
        ScheduleKeepsSerial(ViewOf(s, d), t);
      case Dispatch =>
        ViewAfterDispatch(s, e);
        DispatchKeepsSerial(ViewOf(s, s.ready[0]), s.ready[0]);
      case Finish(k) =>
        ViewAfterFinish(s, k, e);
        SafeFinishKeepsSerial(ViewOf(s, s.running[k].document), RankOf(s, k));
      case Shutdown =>
        assert ViewOf(After(s, step), e) == ViewOf(s, e);
      case Exit =>
        assert ViewOf(After(s, step), e) == ViewOf(s, e);
    }
  }

  /** Whatever the finish order: at most one holder of the duty, listed documents have something
      queued, and the dispatched tasks followed by the queued ones are the scheduled ones. */
  lemma {:induction false} DutyIsUnique(s: State, steps: seq<Step>, d: DocumentId)
    requires AllSound(s) && Run(s, steps)
    ensures AllSound(EndOf(s, steps))
    ensures Duty(ViewOf(EndOf(s, steps), d)) <= 1
    ensures d in EndOf(s, steps).ready ==> QueueOf(EndOf(s, steps), d).queue != []
    ensures TrailOf(EndOf(s, steps), d).dispatched + QueueOf(EndOf(s, steps), d).queue
            == TrailOf(EndOf(s, steps), d).scheduled
    decreases |steps|
  {
    if steps == [] {
      assert Sound(ViewOf(s, d));
    } else {
      StepKeepsSound(s, steps[0]);
      DutyIsUnique(After(s, steps[0]), steps[1..], d);
    }
  }

  lemma {:induction false} SafeRunStaysSerial(s: State, steps: seq<Step>)
    requires AllSerial(s) && SafeRun(s, steps)
    ensures Run(s, steps) && AllSerial(EndOf(s, steps))
    decreases |steps|
  {
    if steps != [] {
      SafeStepKeepsSerial(s, steps[0]);
      SafeRunStaysSerial(After(s, steps[0]), steps[1..]);
    }
  }

  // ----- Serial equivalence ------------------------------------------------------------

  /** The document reached from `init` by running the writes among the first `n` scheduled tasks, one after the
      other. */
  function SerialContents<D>(effect: Task -> D -> D, init: D, scheduled: seq<Task>, n: nat): D
    requires n <= |scheduled|
  {
    if n == 0 then init
    else
      var before := SerialContents(effect, init, scheduled, n - 1);
      if scheduled[n - 1].access.Write? then effect(scheduled[n - 1])(before) else before
  }

  /** The document as the finished writes left it, in the order in which they finished. */
  function Contents<D>(effect: Task -> D -> D, init: D, dispatched: seq<Task>, written: seq<nat>): D
    requires forall i :: 0 <= i < |written| ==> written[i] < |dispatched|
  {
    if written == [] then init
    else effect(dispatched[written[|written| - 1]])(Contents(effect, init, dispatched, written[..|written| - 1]))
  }

  lemma {:induction false} ContentsOfWritePositions<D>(effect: Task -> D -> D, init: D, scheduled: seq<Task>,
                                                       dispatched: seq<Task>, n: nat)
    requires n <= |dispatched| && dispatched <= scheduled
    ensures forall i :: 0 <= i < |WritePositions(dispatched[..n])| ==> WritePositions(dispatched[..n])[i] < n
    ensures Contents(effect, init, dispatched, WritePositions(dispatched[..n]))
            == SerialContents(effect, init, scheduled, n)
  {
    if n > 0 {
      assert dispatched[..n][..n - 1] == dispatched[..n - 1];
      ContentsOfWritePositions(effect, init, scheduled, dispatched, n - 1);
      var earlier := WritePositions(dispatched[..n - 1]);
      if dispatched[n - 1].access.Write? {
        assert WritePositions(dispatched[..n]) == earlier + [n - 1];
        assert (earlier + [n - 1])[..|earlier|] == earlier;
      } else {
        assert WritePositions(dispatched[..n]) == earlier;
      }
    }
  }

  /** In every state of a safe run, each running task faces exactly the document that the earlier
      scheduled writes produce one after the other, and no other write of its document runs. */
  lemma {:induction false} SerialEquivalence<D>(s: State, steps: seq<Step>, k: nat, effect: Task -> D -> D, init: D)
    requires AllSerial(s) && SafeRun(s, steps)
    ensures Run(s, steps)
    ensures k < |EndOf(s, steps).running| ==>
              var end := EndOf(s, steps);
              var r := end.running[k];
              var trail := TrailOf(end, r.document);
              && r.position < |trail.scheduled| && trail.scheduled[r.position] == r.task
              && (forall i :: 0 <= i < |trail.written| ==> trail.written[i] < |trail.dispatched|)
              && Contents(effect, init, trail.dispatched, trail.written)
                   == SerialContents(effect, init, trail.scheduled, r.position)
              && (forall j :: 0 <= j < |end.running| && j != k && end.running[j].document == r.document ==>
                    Reads(end.running[j]) && Reads(r))
  {
    SafeRunStaysSerial(s, steps);
    var end := EndOf(s, steps);
    if k < |end.running| {
      var r := end.running[k];
      var v := ViewOf(end, r.document);
      var j := RankOf(end, k);
      assert v.tasks[j] == r;
      assert Serial(v);
      assert v.trail.dispatched <= v.trail.scheduled;
      RunningTaskFacesSerialContents(v, j, effect, init);
      forall i | 0 <= i < |end.running| && i != k && end.running[i].document == r.document
        ensures Reads(end.running[i]) && Reads(r)
      {
        TwoRunningTasksOnlyRead(end, k, i);
      }
    }
  }

  lemma {:induction false} RunningTaskFacesSerialContents<D>(v: View, j: nat, effect: Task -> D -> D, init: D)
    requires Serial(v) && j < |v.tasks|
    ensures v.tasks[j].position < |v.trail.scheduled|
    ensures forall i :: 0 <= i < |v.trail.written| ==> v.trail.written[i] < |v.trail.dispatched|
    ensures Contents(effect, init, v.trail.dispatched, v.trail.written)
         == SerialContents(effect, init, v.trail.scheduled, v.tasks[j].position)
  {
    assert v.trail.dispatched <= v.trail.scheduled;
    var p := v.tasks[j].position;
    var n := |v.trail.dispatched|;
    assert v.trail.dispatched[..n] == v.trail.dispatched;
    if Reads(v.tasks[j]) {
      assert !v.q.runningWrite;
      WritePositionsSkip(v.trail.dispatched, p);
    }
    ContentsOfWritePositions(effect, init, v.trail.scheduled, v.trail.dispatched, p);
  }

  lemma {:induction false} TwoRunningTasksOnlyRead(s: State, k: nat, i: nat)
    requires AllSerial(s) && k < |s.running| && i < |s.running| && i != k
    requires s.running[i].document == s.running[k].document
    ensures Reads(s.running[i]) && Reads(s.running[k])
  {
    hide Count, NoWriteFrom, WritePositions;
    var d := s.running[k].document;
    var v := ViewOf(s, d);
    TwoTasksOfOneDocument(s.running, if i < k then i else k, if i < k then k else i);
    assert Serial(v) && !v.q.runningWrite;
    assert v.tasks[RankOf(s, i)] == s.running[i] && v.tasks[RankOf(s, k)] == s.running[k];
  }

  lemma {:induction false} TwoTasksOfOneDocument(running: seq<RunningTask>, lo: nat, hi: nat)
    requires lo < hi < |running| && running[lo].document == running[hi].document
    ensures |TasksOf(running, running[lo].document)| >= 2
  {
    var d := running[lo].document;
    SplitAround(running, hi, d);
    SplitAround(running[..hi], lo, d);
    SingleTask(running[hi]);
    SingleTask(running[lo]);
  }

  lemma {:induction false} SingleTask(r: RunningTask)
    ensures TasksOf([r], r.document) == [r]
  {
    assert [r][..0] == [];
  }

  // ----- A pool with one worker --------------------------------------------------------

  /** One worker finishes tasks in the order of their submission. */
  predicate Fifo(steps: seq<Step>) {
    forall i :: 0 <= i < |steps| && steps[i].Finish? ==> steps[i].k == 0
  }

  lemma {:induction false} FirstFinishIsSafe(s: State)
    requires AllSound(s) && CanFinish(s, 0)
    ensures Safe(s, Finish(0))
  {
    var v := ViewOf(s, s.running[0].document);
    assert Sound(v);
    assert s.running[..0] == [];
    assert RankOf(s, 0) == 0;
  }

  /** With a one-worker pool every run is safe, hence serial. */
  lemma {:induction false} OneWorkerRunsAreSafe(s: State, steps: seq<Step>)
    requires AllSound(s) && Run(s, steps) && Fifo(steps)
    ensures SafeRun(s, steps)
    decreases |steps|
  {
    if steps != [] {
      if steps[0].Finish? { FirstFinishIsSafe(s); }
      StepKeepsSound(s, steps[0]);
      OneWorkerRunsAreSafe(After(s, steps[0]), steps[1..]);
    }
  }

  // ----- Behind the exit of the dispatcher ---------------------------------------------

  /** Once the dispatcher has returned, nothing is dispatched any more and what is queued stays queued. */
  lemma {:induction false} NothingDispatchedAfterExit(s: State, steps: seq<Step>, d: DocumentId)
    requires s.exited && Run(s, steps)
    ensures EndOf(s, steps).exited
    ensures TrailOf(EndOf(s, steps), d).dispatched == TrailOf(s, d).dispatched
    ensures QueueOf(s, d).queue <= QueueOf(EndOf(s, steps), d).queue
    decreases |steps|
  {
    if steps != [] {
      NothingDispatchedAfterExit(After(s, steps[0]), steps[1..], d);
    }
  }

  /** Tasks of the document are queued, and in no continuation is any of them dispatched. */
  ghost predicate Lost(s: State, d: DocumentId) {
    && QueueOf(s, d).queue != []
    && (forall steps :: Run(s, steps) ==> TrailOf(EndOf(s, steps), d).dispatched == TrailOf(s, d).dispatched)
  }

  lemma {:induction false} QueuedAfterExitIsLost(s: State, d: DocumentId)
    requires s.exited && QueueOf(s, d).queue != []
    ensures Lost(s, d)
  {
    forall steps | Run(s, steps) ensures TrailOf(EndOf(s, steps), d).dispatched == TrailOf(s, d).dispatched {
      NothingDispatchedAfterExit(s, steps, d);
    }
  }

  /** No task is scheduled after the dispatcher has returned. */
  predicate Timely(s: State, steps: seq<Step>)
    requires Run(s, steps)
    decreases |steps|
  {
    steps == [] || (!(s.exited && steps[0].Schedule?) && Timely(After(s, steps[0]), steps[1..]))
  }

  /** No step is left but scheduling and shutting down. */
  predicate IsAtRest(s: State) {
    !CanDispatch(s) && !CanFinish(s, 0) && !CanExit(s)
  }

  // ----- An unsafe finish breaks the promise -------------------------------------------

  /** Tasks are queued and nobody has the duty to continue. */
  predicate Starved(v: View) {
    v.q.queue != [] && Duty(v) == 0
  }

  lemma {:induction false} StarvedStepStaysStarved(s: State, step: Step, d: DocumentId)
    requires Starved(ViewOf(s, d)) && Enabled(s, step)
    ensures Starved(ViewOf(After(s, step), d))
    ensures TrailOf(After(s, step), d).dispatched == TrailOf(s, d).dispatched
  {
    var v := ViewOf(s, d);
    match step
    case Schedule(e, t) => ViewAfterSchedule(s, e, t, d);
    case Dispatch => ViewAfterDispatch(s, d);
    case Finish(k) =>
      ViewAfterFinish(s, k, d);
      if s.running[k].document == d {
        CountZero(HoldsDuty, v.tasks);
        CountWithout(HoldsDuty, v.tasks, RankOf(s, k));
      }
    case Shutdown =>
    case Exit =>
  }

  /** A starved document is never served again, and the dispatcher never gets to exit. */
  lemma {:induction false} StarvedForever(s: State, steps: seq<Step>, d: DocumentId)
    requires Starved(ViewOf(s, d)) && Run(s, steps)
    ensures Starved(ViewOf(EndOf(s, steps), d)) && !Enabled(EndOf(s, steps), Exit)
    ensures QueueOf(EndOf(s, steps), d).queue != []
    ensures TrailOf(EndOf(s, steps), d).dispatched == TrailOf(s, d).dispatched
    decreases |steps|
  {
    if steps == [] {
      assert d in s.queues && s.queues[d].queue != [];
    } else {
      StarvedStepStaysStarved(s, steps[0], d);
      StarvedForever(After(s, steps[0]), steps[1..], d);
    }
  }

  /** A write of the document runs beside a read of it. */
  ghost predicate Overlaps(s: State, d: DocumentId) {
    exists i, j ::
      && 0 <= i < |s.running| && 0 <= j < |s.running|
      && s.running[i].document == d && s.running[j].document == d
      && s.running[i].task.access.Write? && Reads(s.running[j])
  }

  lemma {:induction false} StarvedIsLost(s: State, d: DocumentId)
    requires Starved(ViewOf(s, d))
    ensures Lost(s, d)
  {
    forall steps | Run(s, steps) ensures TrailOf(EndOf(s, steps), d).dispatched == TrailOf(s, d).dispatched {
      StarvedForever(s, steps, d);
    }
  }

  /** After an unsafe finish on an empty queue, the next task scheduled for the document is lost for good. */
  lemma {:induction false} UnsafeFinishLosesTask(s: State, k: nat, t: Task)
    requires AllSerial(s) && CanFinish(s, k) && !Safe(s, Finish(k))
    requires QueueOf(s, s.running[k].document).queue == []
    ensures Lost(AfterSchedule(AfterFinish(s, k), s.running[k].document, t), s.running[k].document)
  {
    var d := s.running[k].document;
    var v := ViewOf(s, d);
    var j := RankOf(s, k);
    assert Serial(v);
    ViewAfterFinish(s, k, d);
    var v1 := FinishView(v, j);
    CountWithout(HoldsDuty, v.tasks, j);
    FinishKeepsSound(v, j);
    assert v1.q.runningWrite || v1.q.runningReads > 0 by {
      var i := if j == 0 then 1 else 0;
      assert v1.tasks[0] == v.tasks[i];
      CountPositive(Reads, v1.tasks, 0);
    }
    ViewAfterSchedule(AfterFinish(s, k), d, t, d);
    StarvedIsLost(AfterSchedule(AfterFinish(s, k), d, t), d);
  }

  /** After an unsafe finish with a task queued, the document is listed although a write is next
      and a read of it still runs. */
  lemma {:induction false} UnsafeFinishListsWrite(s: State, k: nat)
    requires AllSerial(s) && CanFinish(s, k) && !Safe(s, Finish(k))
    requires QueueOf(s, s.running[k].document).queue != []
    ensures AllSound(AfterFinish(s, k))
    ensures s.running[k].document in AfterFinish(s, k).ready
    ensures WriteNextBesideRead(ViewOf(AfterFinish(s, k), s.running[k].document))
  {
    var d := s.running[k].document;
    var v := ViewOf(s, d);
    var j := RankOf(s, k);
    assert Serial(v);
    ViewAfterFinish(s, k, d);
    assert AllSound(s);
    StepKeepsSound(s, Finish(k));
    hide TasksOf;
    var v1 := FinishView(v, j);
    assert multiset(AfterFinish(s, k).ready)[d] > 0;
    assert v1.tasks[0] == v.tasks[if j == 0 then 1 else 0];
  }

  predicate WriteNextBesideRead(v: View) {
    v.q.queue != [] && v.q.queue[0].access.Write? && v.tasks != [] && Reads(v.tasks[0])
  }

  lemma {:induction false} FrontOverlaps(s: State)
    requires CanDispatch(s) && WriteNextBesideRead(ViewOf(s, s.ready[0]))
    ensures Overlaps(AfterDispatch(s), s.ready[0])
  {
    var d := s.ready[0];
    var s1 := AfterDispatch(s);
    InTasksOf(s.running, d, 0);
    var i :| 0 <= i < |s.running| && s.running[i] == TasksOf(s.running, d)[0];
    hide TasksOf;
    assert s1.running[i] == s.running[i];
    assert s1.running[|s.running|].task.access.Write?;
  }

  lemma {:induction false} FrontCanBeDispatched(s: State)
    requires AllSound(s) && !s.exited && s.ready != []
    ensures CanDispatch(s)
  {
    assert Sound(ViewOf(s, s.ready[0])) && s.ready[0] in multiset(s.ready);
  }

  /** As many dispatches as a document has entries in front of it bring it to the front of the ready list, and leave
      it alone on the way. */
  lemma {:induction false} ListedReachesFront(s: State, i: nat) returns (steps: seq<Step>)
    requires AllSound(s) && !s.exited && i < |s.ready| && s.ready[i] !in s.ready[..i]
    ensures Run(s, steps) && |steps| == i && forall k :: 0 <= k < i ==> steps[k] == Dispatch
    ensures var end := EndOf(s, steps);
            CanDispatch(end) && end.ready[0] == s.ready[i] && ViewOf(end, s.ready[i]) == ViewOf(s, s.ready[i])
    decreases i
  {
    FrontCanBeDispatched(s);
    hide Sound, TasksOf, IsQueueReady, TrailOf;
    var d := s.ready[i];
    if i == 0 {
      steps := [];
    } else {
      var s1 := AfterDispatch(s);
      assert s.ready[0] != d by { assert s.ready[0] in s.ready[..i]; }
      assert s1.ready[..i - 1] == s.ready[1..i];
      ViewAfterDispatch(s, d);
      StepKeepsSound(s, Dispatch);
      var rest := ListedReachesFront(s1, i - 1);
      steps := [Dispatch] + rest;
      assert steps[1..] == rest;
    }
  }

  lemma {:induction false} FirstPosition(ds: seq<DocumentId>, d: DocumentId) returns (i: nat)
    requires d in ds
    ensures i < |ds| && ds[i] == d && d !in ds[..i]
  {
    i := 0;
    while ds[i] != d
      invariant i < |ds| && d !in ds[..i] && d in ds[i..]
      decreases |ds| - i
    {
      i := i + 1;
    }
  }

  lemma {:induction false} RunThenDispatch(s: State, steps: seq<Step>)
    requires Run(s, steps) && CanDispatch(EndOf(s, steps))
    ensures Run(s, steps + [Dispatch]) && EndOf(s, steps + [Dispatch]) == AfterDispatch(EndOf(s, steps))
    decreases |steps|
  {
    if steps == [] {
      assert [] + [Dispatch] == [Dispatch] && [Dispatch][1..] == [];
    } else {
      RunThenDispatch(After(s, steps[0]), steps[1..]);
      assert (steps + [Dispatch])[1..] == steps[1..] + [Dispatch];
    }
  }

  /** Every unsafe finish breaks the promise in some continuation: a write overlaps a read of its
      document, or a task is never dispatched. */
  lemma {:induction false} UnsafeFinishBreaksPromise(s: State, k: nat, t: Task) returns (steps: seq<Step>)
    requires AllSerial(s) && CanFinish(s, k) && !Safe(s, Finish(k))
    ensures Run(AfterFinish(s, k), steps)
    ensures var d := s.running[k].document;
            var end := EndOf(AfterFinish(s, k), steps);
            if QueueOf(s, d).queue == [] then steps == [Schedule(d, t)] && Lost(end, d)
            else if s.exited then steps == [] && Lost(end, d)
            else Overlaps(end, d)
  {
    var d := s.running[k].document;
    var s1 := AfterFinish(s, k);
    if QueueOf(s, d).queue == [] {
      steps := [Schedule(d, t)];
      UnsafeFinishLosesTask(s, k, t);
      Unfold(s1, steps);
    } else {
      UnsafeFinishListsWrite(s, k);
      if s.exited {
        steps := [];
        QueuedAfterExitIsLost(s1, d);
      } else {
        var i := FirstPosition(s1.ready, d);
        var front := ListedReachesFront(s1, i);
        FrontOverlaps(EndOf(s1, front));
        RunThenDispatch(s1, front);
        steps := front + [Dispatch];
      }
    }
  }

  /** Every state of the run is serial. */
  ghost predicate SerialThroughout(s: State, steps: seq<Step>)
    requires Run(s, steps)
    decreases |steps|
  {
    AllSerial(s) && (steps == [] || SerialThroughout(After(s, steps[0]), steps[1..]))
  }

  /** A run from a serial state stays serial throughout if and only if it is safe. */
  lemma {:induction false} SerialExactlyWhenSafe(s: State, steps: seq<Step>)
    requires AllSerial(s) && Run(s, steps)
    ensures SerialThroughout(s, steps) <==> SafeRun(s, steps)
    decreases |steps|
  {
    if steps != [] {
      if Safe(s, steps[0]) {
        SafeStepKeepsSerial(s, steps[0]);
        SerialExactlyWhenSafe(After(s, steps[0]), steps[1..]);
      } else {
        UnsafeStepEndsSerial(s, steps[0].k);
        assert !AllSerial(After(s, steps[0]));
      }
    }
  }

  lemma {:induction false} UnsafeStepEndsSerial(s: State, k: nat)
    requires AllSerial(s) && CanFinish(s, k) && !Safe(s, Finish(k))
    ensures !Serial(ViewOf(AfterFinish(s, k), s.running[k].document))
  {
    var d := s.running[k].document;
    assert Serial(ViewOf(s, d));
    hide Serial, TasksOf;
    ViewAfterFinish(s, k, d);
    FinishKeepsSerialExactlyWhenSafe(ViewOf(s, d), RankOf(s, k));
  }

  lemma {:induction false} InTasksOf(running: seq<RunningTask>, d: DocumentId, j: nat)
    requires j < |TasksOf(running, d)|
    ensures TasksOf(running, d)[j].document == d
    ensures exists i :: 0 <= i < |running| && running[i] == TasksOf(running, d)[j]
  {
    var front := running[..|running| - 1];
    if j < |TasksOf(front, d)| {
      InTasksOf(front, d, j);
      var i :| 0 <= i < |front| && front[i] == TasksOf(front, d)[j];
      assert running[i] == front[i];
    }
  }

  const R1 := Task(ReadOnly, 1)
  const R2 := Task(ReadOnly, 2)
  const W := Task(Write, 3)

  /** Both failures are reachable with two workers: two reads run, and the one dispatched last finishes first. */
  lemma {:induction false} UnsafeRunsExist()
    ensures var overlap := [Schedule(0, R1), Schedule(0, R2), Schedule(0, W), Dispatch, Dispatch, Finish(1), Dispatch];
            && Run(INITIAL, overlap)
            && EndOf(INITIAL, overlap).running == [RunningTask(0, R1, 0, true), RunningTask(0, W, 2, false)]
    ensures var loss := [Schedule(0, R1), Schedule(0, R2), Dispatch, Dispatch, Finish(1), Schedule(0, W), Finish(0)];
            && Run(INITIAL, loss)
            && EndOf(INITIAL, loss).running == [] && EndOf(INITIAL, loss).ready == []
            && QueueOf(EndOf(INITIAL, loss), 0).queue == [W]
  {
    OverlapReachable();
    LossReachable();
  }

  lemma {:induction false} TwoReadsScheduled()
    ensures AfterSchedule(AfterSchedule(INITIAL, 0, R1), 0, R2)
         == State(map[0 := DocumentQueue(false, 0, [R1, R2])], [0], false, false, [], map[0 := Trail([R1, R2], [], [])])
  {
    var s1 := AfterSchedule(INITIAL, 0, R1);
    assert [] + [R1] == [R1] && [] + [0] == [0];
    assert s1 == State(map[0 := DocumentQueue(false, 0, [R1])], [0], false, false, [], map[0 := Trail([R1], [], [])]);
    assert [R1] + [R2] == [R1, R2];
  }

  lemma {:induction false} OverlapReachable()
    ensures var overlap := [Schedule(0, R1), Schedule(0, R2), Schedule(0, W), Dispatch, Dispatch, Finish(1), Dispatch];
            Run(INITIAL, overlap) &&
                EndOf(INITIAL, overlap).running == [RunningTask(0, R1, 0, true), RunningTask(0, W, 2, false)]
  {
    TwoReadsScheduled();
    var s2 := State(map[0 := DocumentQueue(false, 0, [R1, R2])], [0], false, false, [],
        map[0 := Trail([R1, R2], [], [])]);
    assert [R1, R2] + [W] == [R1, R2, W];
    OverlapFrom(AfterSchedule(s2, 0, W));
    Unfold(s2, [Schedule(0, W), Dispatch, Dispatch, Finish(1), Dispatch]);
    Unfold(AfterSchedule(INITIAL, 0, R1), [Schedule(0, R2), Schedule(0, W), Dispatch, Dispatch, Finish(1), Dispatch]);
    Unfold(INITIAL, [Schedule(0, R1), Schedule(0, R2), Schedule(0, W), Dispatch, Dispatch, Finish(1), Dispatch]);
  }

  lemma {:induction false} LossReachable()
    ensures var loss := [Schedule(0, R1), Schedule(0, R2), Dispatch, Dispatch, Finish(1), Schedule(0, W), Finish(0)];
            && Run(INITIAL, loss)
            && EndOf(INITIAL, loss).running == [] && EndOf(INITIAL, loss).ready == []
            && QueueOf(EndOf(INITIAL, loss), 0).queue == [W]
  {
    TwoReadsScheduled();
    LossFrom(AfterSchedule(AfterSchedule(INITIAL, 0, R1), 0, R2));
    Unfold(AfterSchedule(INITIAL, 0, R1), [Schedule(0, R2), Dispatch, Dispatch, Finish(1), Schedule(0, W), Finish(0)]);
    Unfold(INITIAL, [Schedule(0, R1), Schedule(0, R2), Dispatch, Dispatch, Finish(1), Schedule(0, W), Finish(0)]);
  }

  lemma {:induction false} Unfold(s: State, steps: seq<Step>)
    requires steps != [] && Enabled(s, steps[0]) && Run(After(s, steps[0]), steps[1..])
    ensures Run(s, steps) && EndOf(s, steps) == EndOf(After(s, steps[0]), steps[1..])
  {
  }

  lemma {:induction false} OverlapFrom(s3: State)
    requires s3.queues == map[0 := DocumentQueue(false, 0, [R1, R2, W])] && s3.ready == [0] && s3.running == []
    requires !s3.exited
    requires s3.trails == map[0 := Trail([R1, R2, W], [], [])]
    ensures var steps := [Dispatch, Dispatch, Finish(1), Dispatch];
            Run(s3, steps) && EndOf(s3, steps).running == [RunningTask(0, R1, 0, true), RunningTask(0, W, 2, false)]
  {
    var s4 := AfterDispatch(s3);
    var s5 := AfterDispatch(s4);
    assert s5.running == [RunningTask(0, R1, 0, true), RunningTask(0, R2, 1, false)];
    var s6 := AfterFinish(s5, 1);
    assert s6.running == [RunningTask(0, R1, 0, true)];
    var s7 := AfterDispatch(s6);
    Unfold(s6, [Dispatch]);
    Unfold(s5, [Finish(1), Dispatch]);
    Unfold(s4, [Dispatch, Finish(1), Dispatch]);
    Unfold(s3, [Dispatch, Dispatch, Finish(1), Dispatch]);
  }

  lemma {:induction false} LossFrom(s2: State)
    requires s2.queues == map[0 := DocumentQueue(false, 0, [R1, R2])] && s2.ready == [0] && s2.running == []
    requires !s2.exited
    requires s2.trails == map[0 := Trail([R1, R2], [], [])]
    ensures var steps := [Dispatch, Dispatch, Finish(1), Schedule(0, W), Finish(0)];
            Run(s2, steps) && EndOf(s2, steps).running == [] && EndOf(s2, steps).ready == []
            && QueueOf(EndOf(s2, steps), 0).queue == [W]
  {
    var s3 := AfterDispatch(s2);
    var s4 := AfterDispatch(s3);
    assert s4.running == [RunningTask(0, R1, 0, true), RunningTask(0, R2, 1, false)];
    var s5 := AfterFinish(s4, 1);
    assert s5.running == [RunningTask(0, R1, 0, true)];
    var s6 := AfterSchedule(s5, 0, W);
    Unfold(s6, [Finish(0)]);
    Unfold(s5, [Schedule(0, W), Finish(0)]);
    Unfold(s4, [Finish(1), Schedule(0, W), Finish(0)]);
    Unfold(s3, [Dispatch, Finish(1), Schedule(0, W), Finish(0)]);
    Unfold(s2, [Dispatch, Dispatch, Finish(1), Schedule(0, W), Finish(0)]);
  }

  // ----- Waiting in line ---------------------------------------------------------------

  function DispatchCount(steps: seq<Step>): nat
    decreases |steps|
  {
    if steps == [] then 0 else (if steps[0].Dispatch? then 1 else 0) + DispatchCount(steps[1..])
  }

  /** The ready list is a line: each dispatch takes its first entry, no other step moves an entry, and whatever is
      listed meanwhile, a document that is still ready included, stands behind. */
  lemma {:induction false} ListedStayInLine(s: State, steps: seq<Step>)
    requires Run(s, steps) && DispatchCount(steps) <= |s.ready|
    ensures s.ready[DispatchCount(steps)..] <= EndOf(s, steps).ready
    decreases |steps|
  {
    if steps != [] {
      StepKeepsLine(s, steps[0]);
      hide After, Enabled;
      var s1 := After(s, steps[0]);
      var n := DispatchCount(steps[1..]);
      ListedStayInLine(s1, steps[1..]);
      if steps[0].Dispatch? {
        assert s.ready[1..][n..] == s.ready[n + 1..];
        assert s.ready[1..][n..] <= s1.ready[n..];
      } else {
        assert s.ready[n..] <= s1.ready[n..];
      }
    }
  }

  lemma {:induction false} StepKeepsLine(s: State, step: Step)
    requires Enabled(s, step)
    ensures step.Dispatch? ==> s.ready != [] && s.ready[1..] <= After(s, step).ready
    ensures !step.Dispatch? ==> s.ready <= After(s, step).ready
  {
  }

  /** So a listed document waits for the documents in front of it and for no other: whatever happens in between,
      the dispatch behind as many is its own, and takes the first task that its queue has by then. */
  lemma {:induction false} WaitsForThoseInFront(s: State, steps: seq<Step>, i: nat)
    requires AllSound(s) && Run(s, steps) && i < |s.ready| && DispatchCount(steps) == i && !EndOf(s, steps).exited
    ensures var end := EndOf(s, steps);
            var d := s.ready[i];
            && CanDispatch(end) && end.ready[0] == d && QueueOf(end, d).queue != []
            && TrailOf(AfterDispatch(end), d).dispatched == TrailOf(end, d).dispatched + [QueueOf(end, d).queue[0]]
  {
    var end, d := EndOf(s, steps), s.ready[i];
    ListedStayInLine(s, steps);
    DutyIsUnique(s, steps, d);
    assert end.ready[0] == s.ready[i..][0];
    FrontCanBeDispatched(end);
  }

  /** A document that stays ready goes behind those that wait: of two reads and another document's write the write
      is dispatched second. */
  lemma {:induction false} OthersGetTheirTurn()
    ensures var steps := [Schedule(0, R1), Schedule(0, R2), Schedule(1, W), Dispatch, Dispatch];
            Run(INITIAL, steps)
            && EndOf(INITIAL, steps).running == [RunningTask(0, R1, 0, true), RunningTask(1, W, 0, false)]
  {
    TwoReadsScheduled();
    var s2 := AfterSchedule(AfterSchedule(INITIAL, 0, R1), 0, R2);
    assert [0] + [1] == [0, 1] && [] + [W] == [W];
    TurnsFrom(AfterSchedule(s2, 1, W));
    Unfold(s2, [Schedule(1, W), Dispatch, Dispatch]);
    Unfold(AfterSchedule(INITIAL, 0, R1), [Schedule(0, R2), Schedule(1, W), Dispatch, Dispatch]);
    Unfold(INITIAL, [Schedule(0, R1), Schedule(0, R2), Schedule(1, W), Dispatch, Dispatch]);
  }

  lemma {:induction false} TurnsFrom(s3: State)
    requires s3.queues == map[0 := DocumentQueue(false, 0, [R1, R2]), 1 := DocumentQueue(false, 0, [W])]
    requires s3.trails == map[0 := Trail([R1, R2], [], []), 1 := Trail([W], [], [])]
    requires s3.ready == [0, 1] && s3.running == [] && !s3.exited
    ensures var steps := [Dispatch, Dispatch];
            Run(s3, steps)
            && EndOf(s3, steps).running == [RunningTask(0, R1, 0, true), RunningTask(1, W, 0, false)]
  {
    var s4 := AfterDispatch(s3);
    assert s4.ready == [1, 0] && s4.running == [RunningTask(0, R1, 0, true)];
    var s5 := AfterDispatch(s4);
    Unfold(s4, [Dispatch]);
    Unfold(s3, [Dispatch, Dispatch]);
  }

  // ----- Draining ----------------------------------------------------------------------

  ghost function QueuedIn(queues: map<DocumentId, DocumentQueue>): nat
    decreases |queues|
  {
    if queues == map[] then 0
    else
      var d :| d in queues;
      |queues[d].queue| + QueuedIn(queues - {d})
  }

  ghost function Outstanding(s: State): nat {
    2 * QueuedIn(s.queues) + |s.running| + if s.exited then 0 else 1
  }

  lemma {:induction false} QueuedInPick(queues: map<DocumentId, DocumentQueue>, d: DocumentId)
    requires d in queues
    ensures QueuedIn(queues) == |queues[d].queue| + QueuedIn(queues - {d})
    decreases |queues|
  {
    var e :| e in queues && QueuedIn(queues) == |queues[e].queue| + QueuedIn(queues - {e});
    if e != d {
      QueuedInPick(queues - {e}, d);
      QueuedInPick(queues - {d}, e);
      assert queues - {e} - {d} == queues - {d} - {e};
    }
  }

  lemma {:induction false} QueuedInUpdate(queues: map<DocumentId, DocumentQueue>, d: DocumentId, q: DocumentQueue)
    requires d in queues
    ensures QueuedIn(queues[d := q]) == QueuedIn(queues) - |queues[d].queue| + |q.queue|
  {
    QueuedInPick(queues, d);
    QueuedInPick(queues[d := q], d);
    assert queues[d := q] - {d} == queues - {d};
  }

  lemma {:induction false} OutstandingDecreases(s: State, step: Step)
    requires Enabled(s, step) && (step.Dispatch? || step.Finish? || step.Exit?)
    ensures Outstanding(After(s, step)) == Outstanding(s) - 1
  {
    if step.Exit? { return; }
    var d := if step.Dispatch? then s.ready[0] else s.running[step.k].document;
    QueuedInUpdate(s.queues, d, After(s, step).queues[d]);
  }

  lemma {:induction false} RunningProgresses(s: State)
    requires AllSerial(s) && s.running != []
    ensures CanFinish(s, 0) && Safe(s, Finish(0))
  {
    var d := s.running[0].document;
    assert Serial(ViewOf(s, d));
    assert s.running[..0] == [];
    assert TasksOf(s.running, d)[RankOf(s, 0)] == s.running[0];
    hide TasksOf;
    FirstFinishIsSafe(s);
  }

  lemma {:induction false} QueuedProgresses(s: State)
    requires AllSerial(s) && HasAnyTask(s) && s.running == [] && !s.exited
    ensures CanDispatch(s)
  {
    var d :| d in s.queues && s.queues[d].queue != [];
    var v := ViewOf(s, d);
    assert Serial(v) && v.tasks == [];
    assert d in multiset(s.ready);
    assert s.ready[0] in multiset(s.ready);
    assert Serial(ViewOf(s, s.ready[0]));
  }

  /** Work left in a serial state is never stuck while the dispatcher runs: something can be dispatched
      or safely finished. Once it has returned, what runs can still be finished safely. */
  lemma {:induction false} SerialStateProgresses(s: State)
    requires AllSerial(s) && ((HasAnyTask(s) && !s.exited) || s.running != [])
    ensures CanDispatch(s) || (CanFinish(s, 0) && Safe(s, Finish(0)))
  {
    hide *;
    if s.running != [] { RunningProgresses(s); } else { QueuedProgresses(s); }
  }

  /** Once scheduling stops, a safe run takes a bounded number of steps. Where it cannot be continued, nothing
      runs and every write is done, and the dispatcher has returned if it was told to. */
  lemma {:induction false} SafeRunsDrain(s: State, steps: seq<Step>, d: DocumentId)
    requires AllSerial(s) && SafeRun(s, steps)
    requires forall i :: 0 <= i < |steps| ==> steps[i].Dispatch? || steps[i].Finish? || steps[i].Exit?
    ensures |steps| <= Outstanding(s)
    ensures Run(s, steps)
    ensures IsAtRest(EndOf(s, steps)) ==>
              var end := EndOf(s, steps);
              var trail := TrailOf(end, d);
              && end.running == [] && trail.written == WritePositions(trail.dispatched)
              && (s.exited ==> trail.dispatched == TrailOf(s, d).dispatched)
              && (!s.exited ==> trail.dispatched == trail.scheduled == TrailOf(s, d).scheduled)
              && end.exited == (s.exited || s.shutdown)
  {
    RunWithoutScheduling(s, steps, d);
    SafeRunStaysSerial(s, steps);
    if IsAtRest(EndOf(s, steps)) {
      hide AllSerial, TrailOf, EndOf, Run, SafeRun, HasAnyTask, CanDispatch, CanFinish, CanExit;
      AtRest(EndOf(s, steps), d);
    }
  }

  lemma {:induction false} RunWithoutScheduling(s: State, steps: seq<Step>, d: DocumentId)
    requires AllSerial(s) && SafeRun(s, steps)
    requires forall i :: 0 <= i < |steps| ==> steps[i].Dispatch? || steps[i].Finish? || steps[i].Exit?
    ensures |steps| <= Outstanding(s)
    ensures Run(s, steps)
    ensures WithoutScheduling(s, EndOf(s, steps), d)
    decreases |steps|
  {
    if steps != [] {
      OutstandingDecreases(s, steps[0]);
      SafeStepKeepsSerial(s, steps[0]);
      StepWithoutScheduling(s, steps[0], d);
      hide Serial, After, Enabled, Safe, TrailOf, Outstanding;
      RunWithoutScheduling(After(s, steps[0]), steps[1..], d);
    }
  }

  /** What holds of a later state `end` when nothing was scheduled since `s`. */
  predicate WithoutScheduling(s: State, end: State, d: DocumentId) {
    && TrailOf(end, d).scheduled == TrailOf(s, d).scheduled
    && end.shutdown == s.shutdown
    && (s.exited ==> end.exited && TrailOf(end, d).dispatched == TrailOf(s, d).dispatched)
    && (end.exited && !s.exited ==> s.shutdown && TrailOf(end, d).dispatched == TrailOf(s, d).scheduled)
  }

  lemma {:induction false} StepWithoutScheduling(s: State, step: Step, d: DocumentId)
    requires AllSound(s) && Enabled(s, step) && (step.Dispatch? || step.Finish? || step.Exit?)
    ensures WithoutScheduling(s, After(s, step), d)
  {
    if step.Exit? { NothingQueued(s, d); }
  }

  lemma {:induction false} AtRest(s: State, d: DocumentId)
    requires AllSerial(s) && IsAtRest(s)
    ensures s.running == [] && TrailOf(s, d).written == WritePositions(TrailOf(s, d).dispatched)
    ensures !s.exited ==> !s.shutdown && !HasAnyTask(s) && TrailOf(s, d).dispatched == TrailOf(s, d).scheduled
  {
    if s.running != [] || (HasAnyTask(s) && !s.exited) { SerialStateProgresses(s); }
    var v := ViewOf(s, d);
    assert Serial(v) && v.tasks == [];
    assert v.trail.dispatched[..|v.trail.dispatched|] == v.trail.dispatched;
    if !s.exited { NothingQueued(s, d); }
  }

  lemma {:induction false} NothingQueued(s: State, d: DocumentId)
    requires AllSound(s) && !HasAnyTask(s)
    ensures TrailOf(s, d).dispatched == TrailOf(s, d).scheduled
  {
    assert Sound(ViewOf(s, d));
    assert d in s.queues ==> s.queues[d].queue == [];
  }

  /** The dispatcher returns only when every scheduled task was dispatched. */
  lemma {:induction false} ExitMeansAllDispatched(steps: seq<Step>, d: DocumentId)
    requires Run(INITIAL, steps) && Enabled(EndOf(INITIAL, steps), Exit)
    ensures TrailOf(EndOf(INITIAL, steps), d).dispatched == TrailOf(EndOf(INITIAL, steps), d).scheduled
  {
    InitiallySerial();
    DutyIsUnique(INITIAL, steps, d);
    NothingQueued(EndOf(INITIAL, steps), d);
  }

  // ----- Tasks that come too late ------------------------------------------------------

  /** Scheduling does not ask whether the dispatcher has returned. At the end of a safe run every scheduled
      task was dispatched if and only if no task was scheduled after it had. */
  lemma {:induction false} AllDispatchedExactlyWhenTimely(s: State, steps: seq<Step>)
    requires AllSerial(s) && !s.exited && SafeRun(s, steps)
    ensures Run(s, steps) && AllSerial(EndOf(s, steps))
    ensures IsAtRest(EndOf(s, steps)) ==>
              (Timely(s, steps) <==>
               forall d :: TrailOf(EndOf(s, steps), d).dispatched == TrailOf(EndOf(s, steps), d).scheduled)
  {
    SafeRunStaysSerial(s, steps);
    var end := EndOf(s, steps);
    if IsAtRest(end) {
      QueuedExactlyWhenLate(s, steps);
      if HasAnyTask(end) {
        var d :| d in end.queues && end.queues[d].queue != [];
        assert Sound(ViewOf(end, d));
        assert TrailOf(end, d).dispatched != TrailOf(end, d).scheduled;
      } else {
        forall d ensures TrailOf(end, d).dispatched == TrailOf(end, d).scheduled {
          NothingQueued(end, d);
        }
      }
    }
  }

  lemma {:induction false} QueuedExactlyWhenLate(s: State, steps: seq<Step>)
    requires AllSerial(s) && (s.exited ==> !HasAnyTask(s)) && SafeRun(s, steps)
    requires Run(s, steps) && IsAtRest(EndOf(s, steps))
    ensures HasAnyTask(EndOf(s, steps)) <==> !Timely(s, steps)
    decreases |steps|
  {
    if steps == [] {
      AtRest(s, 0);
    } else if s.exited && steps[0].Schedule? {
      LateTaskStaysQueued(s, steps);
    } else {
      SafeStepKeepsSerial(s, steps[0]);
      QueuedExactlyWhenLate(After(s, steps[0]), steps[1..]);
    }
  }

  /** A task that is scheduled after the dispatcher has returned is never dispatched. */
  lemma {:induction false} LateTaskStaysQueued(s: State, steps: seq<Step>)
    requires s.exited && Run(s, steps) && steps != [] && steps[0].Schedule?
    ensures var d := steps[0].document;
            var end := EndOf(s, steps);
            && TrailOf(end, d).dispatched == TrailOf(s, d).dispatched
            && QueueOf(s, d).queue + [steps[0].task] <= QueueOf(end, d).queue && HasAnyTask(end)
  {
    var d := steps[0].document;
    var s1 := After(s, steps[0]);
    NothingDispatchedAfterExit(s1, steps[1..], d);
    assert QueueOf(s1, d).queue == QueueOf(s, d).queue + [steps[0].task];
    assert d in EndOf(s, steps).queues;
  }

  /** Such a run is reachable from the start, and no finish in it is unsafe. */
  lemma {:induction false} LateTaskExample()
    ensures var steps := [Shutdown, Exit, Schedule(0, W)];
            && SafeRun(INITIAL, steps) && Run(INITIAL, steps) && !Timely(INITIAL, steps)
            && Lost(EndOf(INITIAL, steps), 0)
  {
    var s1 := After(INITIAL, Shutdown);
    var s2 := After(s1, Exit);
    var s3 := After(s2, Schedule(0, W));
    Unfold(s2, [Schedule(0, W)]);
    Unfold(s1, [Exit, Schedule(0, W)]);
    Unfold(INITIAL, [Shutdown, Exit, Schedule(0, W)]);
    assert !Timely(s2, [Schedule(0, W)]);
    assert [Exit, Schedule(0, W)][1..] == [Schedule(0, W)];
    assert [Shutdown, Exit, Schedule(0, W)][1..] == [Exit, Schedule(0, W)];
    assert SafeRun(s2, [Schedule(0, W)]) && SafeRun(s1, [Exit, Schedule(0, W)]);
    QueuedAfterExitIsLost(s3, 0);
  }

  // ----- The scheduler object ----------------------------------------------------------

  class DocumentTaskScheduler {
    var documentQueues: map<DocumentId, DocumentQueue>
    var readyDocuments: seq<DocumentId>
    var isShutdown: bool
    /** The dispatcher's thread has left its loop. */
    var hasReturned: bool
    /** The tasks submitted to the thread pool that have not finished yet. */
    var pool: seq<RunningTask>
    /** The observer's record; no decision of the scheduler reads it. */
    var trails: map<DocumentId, Trail>

    ghost function Current(): State
      reads this
    {
      State(documentQueues, readyDocuments, isShutdown, hasReturned, pool, trails)
    }

    constructor ()
      ensures Current() == INITIAL
    {
      documentQueues, readyDocuments, isShutdown, hasReturned, pool, trails := map[], [], false, false, [], map[];
    }

    method Schedule(id: DocumentId, access: Access, body: nat)
      modifies this
      ensures Current() == After(old(Current()), Step.Schedule(id, Task(access, body)))
    {
      var task := Task(access, body);
      if id !in documentQueues {
        documentQueues := documentQueues[id := DocumentQueue(false, 0, [task])];
        readyDocuments := readyDocuments + [id];
      } else {
        var queue := documentQueues[id];
        queue := queue.(queue := queue.queue + [task]);
        documentQueues := documentQueues[id := queue];
        if |queue.queue| == 1 && !queue.runningWrite && queue.runningReads == 0 {
          readyDocuments := readyDocuments + [id];
        }
      }
      var trail := if id in trails then trails[id] else NO_TRAIL;
      trails := trails[id := trail.(scheduled := trail.scheduled + [task])];
    }

    /** One pass of the dispatcher's loop: false when it returns; the wait of the source is the precondition. */
    method DispatchNext() returns (keepRunning: bool)
      requires AllSound(Current()) && !hasReturned
      requires (isShutdown && !HasAnyTask(Current())) || readyDocuments != []
      modifies this
      ensures keepRunning <==> old(!isShutdown || HasAnyTask(Current()))
      ensures !keepRunning ==> old(CanExit(Current())) && Current() == After(old(Current()), Exit)
      ensures keepRunning ==> old(CanDispatch(Current())) && Current() == After(old(Current()), Dispatch)
    {
      var anyTask := AnyTask();
      if isShutdown && !anyTask {
        hasReturned := true;
        return false;
      }
      var id := readyDocuments[0];
      assert Sound(ViewOf(Current(), id)) && id in multiset(readyDocuments);
      readyDocuments := readyDocuments[1..];
      var queue := documentQueues[id];
      var task := queue.queue[0];
      queue := queue.(queue := queue.queue[1..]);
      if task.access.ReadOnly? {
        queue := queue.(runningReads := queue.runningReads + 1);
      } else {
        queue := queue.(runningWrite := true);
      }
      documentQueues := documentQueues[id := queue];
      var isStillReady := IsQueueReady(queue);
      if isStillReady {
        readyDocuments := readyDocuments + [id];
      }
      var trail := if id in trails then trails[id] else NO_TRAIL;
      pool := pool + [RunningTask(id, task, |trail.dispatched|, isStillReady)];
      trails := trails[id := trail.(dispatched := trail.dispatched + [task])];
      keepRunning := true;
    }

    method AnyTask() returns (any: bool)
      ensures any <==> HasAnyTask(Current())
    {
      var rest := documentQueues.Keys;
      while rest != {}
        invariant rest <= documentQueues.Keys
        invariant forall d :: d in documentQueues && d !in rest ==> documentQueues[d].queue == []
        decreases |rest|
      {
        var d :| d in rest;
        if documentQueues[d].queue != [] { return true; }
        rest := rest - {d};
      }
      any := false;
    }

    /** What the k-th running task does, under the mutex, when its body has run. */
    method FinishTask(k: nat)
      requires AllSound(Current()) && k < |pool|
      modifies this
      ensures old(CanFinish(Current(), k)) && Current() == After(old(Current()), Finish(k))
    {
      var r := pool[k];
      assert Sound(ViewOf(Current(), r.document)) && TasksOf(pool, r.document)[RankOf(Current(), k)] == r;
      var queue := documentQueues[r.document];
      if r.task.access.ReadOnly? {
        queue := queue.(runningReads := queue.runningReads - 1);
      } else {
        queue := queue.(runningWrite := false);
      }
      documentQueues := documentQueues[r.document := queue];
      if !r.wasStillReady && queue.queue != [] {
        readyDocuments := readyDocuments + [r.document];
      }
      pool := pool[..k] + pool[k + 1..];
      var trail := if r.document in trails then trails[r.document] else NO_TRAIL;
      trails := trails[r.document :=
          if r.task.access.Write? then trail.(written := trail.written + [r.position]) else trail];
    }

    method RequestShutdown()
      modifies this
      ensures Current() == After(old(Current()), Shutdown)
    {
      if isShutdown { return; }
      isShutdown := true;
    }
  }
}
