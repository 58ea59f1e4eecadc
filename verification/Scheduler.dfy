/** The allocation of fuzz jobs to CPU windows, as a state machine that interleaves
    the allocation loop with jobs that start and finish at any time. */
module Scheduler {
  import opened CpuBudget

  type Job = string

  /** A submitted job waits for an executor thread, runs, and is done. */
  datatype Status = Waiting | Running | Done

  datatype Task = Task(job: Job, pipe: nat, status: Status, harvested: bool)

  /** Where the allocation loop is: about to dispatch, polling task `next`, or through. */
  datatype Place = Choosing | Polling(next: nat) | Exited

  datatype State = State(queue: seq<Job>, free: set<nat>, tasks: seq<Task>, place: Place)

  /** The loop as written polls every task ever started; the intended loop skips
      tasks whose pipe it has already taken back. */
  datatype Mode = Rescan | HarvestOnce

  datatype Campaign = Campaign(jobs: seq<Job>, pipes: nat, mode: Mode)

  // ---------------------------------------------------------------------
  // Steps
  // ---------------------------------------------------------------------

  function AllPipes(n: nat): (s: set<nat>)
    ensures forall k: nat :: k in s <==> k < n
  {
    if n == 0 then {} else AllPipes(n - 1) + {n - 1}
  }

  function InitState(c: Campaign): State {
    State(c.jobs, AllPipes(c.pipes), [], Choosing)
  }

  /** After a dispatch or a round of polling: poll again while no pipe is free. */
  function AfterLoop(free: set<nat>): Place {
    if free == {} then Polling(0) else Choosing
  }

  /** Takes the last job of the queue and any free pipe. */
  ghost predicate Dispatch(s: State, s': State, pipe: nat) {
    && s.place == Choosing && s.queue != [] && pipe in s.free
    && s' == State(s.queue[..|s.queue| - 1], s.free - {pipe},
                   s.tasks + [Task(s.queue[|s.queue| - 1], pipe, Waiting, false)],
                   AfterLoop(s.free - {pipe}))
  }

  ghost predicate Exit(s: State, s': State) {
    && s.place == Choosing && (s.queue == [] || s.free == {})
    && s' == s.(place := Exited)
  }

  ghost predicate GivesBack(c: Campaign, t: Task) {
    t.status == Done && (c.mode == Rescan || !t.harvested)
  }

  /** Polls one task; a done one gives its pipe back. */
  ghost predicate Poll(c: Campaign, s: State, s': State) {
    && s.place.Polling? && s.place.next < |s.tasks|
    && var i := s.place.next;
       s' == if GivesBack(c, s.tasks[i])
             then State(s.queue, s.free + {s.tasks[i].pipe},
                        s.tasks[i := s.tasks[i].(harvested := true)], Polling(i + 1))
             else s.(place := Polling(i + 1))
  }

  ghost predicate EndPoll(s: State, s': State) {
    && s.place == Polling(|s.tasks|)
    && s' == s.(place := AfterLoop(s.free))
  }

  function RunningTasks(tasks: seq<Task>): nat {
    if tasks == [] then 0
    else RunningTasks(tasks[..|tasks| - 1]) + if tasks[|tasks| - 1].status == Running then 1 else 0
  }

  /** The executor starts submitted jobs in order, on at most `pipes` threads. */
  ghost predicate Start(c: Campaign, s: State, s': State, i: nat) {
    && i < |s.tasks| && s.tasks[i].status == Waiting
    && (forall j | 0 <= j < i :: s.tasks[j].status != Waiting)
    && RunningTasks(s.tasks) < c.pipes
    && s' == s.(tasks := s.tasks[i := s.tasks[i].(status := Running)])
  }

  ghost predicate End(s: State, s': State, i: nat) {
    && i < |s.tasks| && s.tasks[i].status == Running
    && s' == s.(tasks := s.tasks[i := s.tasks[i].(status := Done)])
  }

  ghost predicate LoopStep(c: Campaign, s: State, s': State) {
    (exists pipe :: Dispatch(s, s', pipe)) || Exit(s, s') || Poll(c, s, s') || EndPoll(s, s')
  }

  ghost predicate JobStep(c: Campaign, s: State, s': State) {
    exists i: nat :: Start(c, s, s', i) || End(s, s', i)
  }

  ghost predicate Next(c: Campaign, s: State, s': State) {
    LoopStep(c, s, s') || JobStep(c, s, s')
  }

  ghost predicate IsRun(c: Campaign, run: seq<State>) {
    && run != [] && run[0] == InitState(c)
    && forall i | 0 <= i < |run| - 1 :: Next(c, run[i], run[i + 1])
  }

  ghost predicate Reachable(c: Campaign, s: State) {
    exists run :: IsRun(c, run) && run[|run| - 1] == s
  }

  lemma InitReachable(c: Campaign)
    ensures Reachable(c, InitState(c))
  {
    assert IsRun(c, [InitState(c)]);
  }

  lemma NextReachable(c: Campaign, s: State, s': State)
    requires Reachable(c, s) && Next(c, s, s')
    ensures Reachable(c, s')
  {
    var run :| IsRun(c, run) && run[|run| - 1] == s;
    assert IsRun(c, run + [s']);
    assert (run + [s'])[|run|] == s';
  }

  // ---------------------------------------------------------------------
  // No job is lost or run twice
  // ---------------------------------------------------------------------

  /** The jobs dispatched so far, latest first. */
  function Dispatched(tasks: seq<Task>): seq<Job> {
    if tasks == [] then [] else [tasks[|tasks| - 1].job] + Dispatched(tasks[..|tasks| - 1])
  }

  /** Holds in every reachable state of both loops. */
  ghost predicate Safe(c: Campaign, s: State) {
    && s.queue + Dispatched(s.tasks) == c.jobs
    && (forall k | k in s.free :: k < c.pipes)
    && (forall t | t in s.tasks :: t.pipe < c.pipes)
    && (s.place.Polling? ==> s.place.next <= |s.tasks|)
    && (c.pipes >= 1 && s.place == Choosing ==> s.free != {})
    && (c.pipes >= 1 && s.place == Exited ==> s.queue == [])
  }

  lemma {:induction false} DispatchedUpdate(tasks: seq<Task>, i: nat, t: Task)
    requires i < |tasks| && t.job == tasks[i].job
    ensures Dispatched(tasks[i := t]) == Dispatched(tasks)
  {
    var n := |tasks| - 1;
    if i == n {
      assert tasks[i := t][..n] == tasks[..n];
    } else {
      DispatchedUpdate(tasks[..n], i, t);
      assert tasks[i := t][..n] == tasks[..n][i := t];
    }
  }

  lemma InitSafe(c: Campaign)
    ensures Safe(c, InitState(c))
  {
    if c.pipes >= 1 {
      assert 0 in AllPipes(c.pipes);
    }
    assert c.jobs + [] == c.jobs;
  }

  lemma DispatchSafe(c: Campaign, s: State, s': State, pipe: nat)
    requires Safe(c, s) && Dispatch(s, s', pipe)
    ensures Safe(c, s')
  {
    assert s'.tasks[..|s.tasks|] == s.tasks;
    assert s.queue == s'.queue + [s.queue[|s.queue| - 1]];
    assert Dispatched(s'.tasks) == [s.queue[|s.queue| - 1]] + Dispatched(s.tasks);
  }

  lemma NextSafe(c: Campaign, s: State, s': State)
    requires Safe(c, s) && Next(c, s, s')
    ensures Safe(c, s')
  {
    if pipe :| Dispatch(s, s', pipe) {
      DispatchSafe(c, s, s', pipe);
    } else if Poll(c, s, s') {
      var i := s.place.next;
      assert s.tasks[i] in s.tasks;
      DispatchedUpdate(s.tasks, i, s'.tasks[i]);
    } else if i: nat :| Start(c, s, s', i) || End(s, s', i) {
      assert s.tasks[i] in s.tasks;
      DispatchedUpdate(s.tasks, i, s'.tasks[i]);
    }
  }

  /** In every reachable state, of the loop as written and of the intended one, the
      queue and the dispatched jobs in reverse make up the original pipeline; the
      loop exits only when the queue is empty. */
  lemma {:induction false} NoJobLost(c: Campaign, run: seq<State>, i: nat)
    requires IsRun(c, run) && i < |run|
    ensures Safe(c, run[i])
  {
    hide Safe;
    if i == 0 {
      InitSafe(c);
    } else {
      NoJobLost(c, run, i - 1);
      assert Next(c, run[i - 1], run[i]);
      NextSafe(c, run[i - 1], run[i]);
    }
  }

  lemma ReachableSafe(c: Campaign, s: State)
    requires Reachable(c, s)
    ensures Safe(c, s)
  {
    var run :| IsRun(c, run) && run[|run| - 1] == s;
    NoJobLost(c, run, |run| - 1);
  }

  // ---------------------------------------------------------------------
  // The intended loop: pipes are never shared
  // ---------------------------------------------------------------------

  /** Free pipes and pipes of unharvested tasks partition the pipes. */
  ghost predicate Partitioned(c: Campaign, s: State) {
    && (forall i | 0 <= i < |s.tasks| && !s.tasks[i].harvested :: s.tasks[i].pipe < c.pipes && s.tasks[i].pipe !in s.free)
    && (forall i, j | 0 <= i < j < |s.tasks| && !s.tasks[i].harvested && !s.tasks[j].harvested ::
          s.tasks[i].pipe != s.tasks[j].pipe)
    && (forall k | k in s.free :: k < c.pipes)
    && (forall k: nat | k < c.pipes :: k in s.free || PipeHeld(s.tasks, k))
    && (forall i | 0 <= i < |s.tasks| && s.tasks[i].harvested :: s.tasks[i].status == Done)
  }

  ghost predicate PipeHeld(tasks: seq<Task>, pipe: nat) {
    exists i :: 0 <= i < |tasks| && !tasks[i].harvested && tasks[i].pipe == pipe
  }

  lemma PipeHeldKept(tasks: seq<Task>, tasks': seq<Task>, pipe: nat)
    requires PipeHeld(tasks, pipe) && |tasks| <= |tasks'|
    requires forall i | 0 <= i < |tasks| && tasks[i].pipe == pipe && !tasks[i].harvested ::
      tasks'[i].pipe == pipe && !tasks'[i].harvested
    ensures PipeHeld(tasks', pipe)
  {
    var i :| 0 <= i < |tasks| && !tasks[i].harvested && tasks[i].pipe == pipe;
    assert !tasks'[i].harvested && tasks'[i].pipe == pipe;
  }

  lemma DispatchPartitioned(c: Campaign, s: State, s': State, pipe: nat)
    requires Partitioned(c, s) && Dispatch(s, s', pipe)
    ensures Partitioned(c, s')
  {
    assert s'.tasks[|s.tasks|].pipe == pipe;
    forall k: nat | k < c.pipes
      ensures k in s'.free || PipeHeld(s'.tasks, k)
    {
      if k !in s.free {
        PipeHeldKept(s.tasks, s'.tasks, k);
      }
    }
  }

  lemma PollPartitioned(c: Campaign, s: State, s': State)
    requires c.mode == HarvestOnce && Partitioned(c, s) && Poll(c, s, s')
    ensures Partitioned(c, s')
  {
    forall k: nat | k < c.pipes
      ensures k in s'.free || PipeHeld(s'.tasks, k)
    {
      if k !in s'.free {
        PipeHeldKept(s.tasks, s'.tasks, k);
      }
    }
  }

  lemma JobPartitioned(c: Campaign, s: State, s': State, i: nat)
    requires Partitioned(c, s) && (Start(c, s, s', i) || End(s, s', i))
    ensures Partitioned(c, s')
  {
    forall k: nat | k < c.pipes
      ensures k in s'.free || PipeHeld(s'.tasks, k)
    {
      if k !in s.free {
        PipeHeldKept(s.tasks, s'.tasks, k);
      }
    }
  }

  lemma NextPartitioned(c: Campaign, s: State, s': State)
    requires c.mode == HarvestOnce && Partitioned(c, s) && Next(c, s, s')
    ensures Partitioned(c, s')
  {
    hide Partitioned;
    if pipe :| Dispatch(s, s', pipe) {
      DispatchPartitioned(c, s, s', pipe);
    } else if Poll(c, s, s') {
      PollPartitioned(c, s, s');
    } else if i: nat :| Start(c, s, s', i) || End(s, s', i) {
      JobPartitioned(c, s, s', i);
    } else {
      PlacePartitioned(c, s, s');
    }
  }

  lemma PlacePartitioned(c: Campaign, s: State, s': State)
    requires Partitioned(c, s) && s'.free == s.free && s'.tasks == s.tasks
    ensures Partitioned(c, s')
  {
  }

  /** With each completion harvested once, free pipes and pipes of unharvested tasks
      partition the pipes in every reachable state. */
  lemma {:induction false} HarvestOncePartitions(c: Campaign, run: seq<State>, i: nat)
    requires c.mode == HarvestOnce && IsRun(c, run) && i < |run|
    ensures Partitioned(c, run[i])
  {
    hide Partitioned;
    if i == 0 {
      InitPartitioned(c);
    } else {
      HarvestOncePartitions(c, run, i - 1);
      assert Next(c, run[i - 1], run[i]);
      NextPartitioned(c, run[i - 1], run[i]);
    }
  }

  lemma InitPartitioned(c: Campaign)
    ensures Partitioned(c, InitState(c))
  {
  }

  /** Jobs that are not done hold different pipes. */
  ghost predicate UnfinishedExclusive(s: State) {
    forall i, j | 0 <= i < j < |s.tasks| && s.tasks[i].status != Done && s.tasks[j].status != Done ::
      s.tasks[i].pipe != s.tasks[j].pipe
  }

  /** Jobs that run hold different pipes. */
  ghost predicate RunningExclusive(s: State) {
    forall i, j | 0 <= i < j < |s.tasks| && s.tasks[i].status == Running && s.tasks[j].status == Running ::
      s.tasks[i].pipe != s.tasks[j].pipe
  }

  /** So unfinished jobs have disjoint CPU windows inside the CPUs of the campaign. */
  lemma HarvestOnceWindows(
    c: Campaign, s: State, ncpu: nat, workers: nat, threads: nat, i: nat, j: nat, cpu: nat)
    requires c.mode == HarvestOnce && Reachable(c, s) && Fits(ncpu, workers, threads, c.pipes)
    requires i < |s.tasks| && s.tasks[i].status != Done && InWindow(workers, s.tasks[i].pipe, cpu)
    ensures cpu < ncpu
    ensures j < |s.tasks| && j != i && s.tasks[j].status != Done ==> !InWindow(workers, s.tasks[j].pipe, cpu)
  {
    var run :| IsRun(c, run) && run[|run| - 1] == s;
    HarvestOncePartitions(c, run, |run| - 1);
    WindowInside(ncpu, workers, threads, c.pipes, s.tasks[i].pipe, cpu);
    if j < |s.tasks| && j != i && s.tasks[j].status != Done {
      WindowsDisjoint(workers, s.tasks[i].pipe, s.tasks[j].pipe, cpu);
    }
  }

  // ---------------------------------------------------------------------
  // The loop as written: when it keeps pipes exclusive
  // ---------------------------------------------------------------------

  /** What the loop as written keeps while there are at most `pipes + 1` jobs. */
  ghost predicate FewJobs(c: Campaign, s: State) {
    && |s.queue| + |s.tasks| == |c.jobs| <= c.pipes + 1
    // the first round hands out different pipes
    && (|s.tasks| < c.pipes ==> !s.place.Polling? && |s.free| == c.pipes - |s.tasks|)
    && (|s.tasks| < c.pipes ==> forall i | 0 <= i < |s.tasks| :: s.tasks[i].pipe !in s.free)
    && (forall i, j | 0 <= i < j < |s.tasks| && j < c.pipes :: s.tasks[i].pipe != s.tasks[j].pipe)
    // a pipe that came back was held by a job that is done
    && (|s.tasks| <= c.pipes ==>
          forall i | 0 <= i < |s.tasks| && s.tasks[i].pipe in s.free :: s.tasks[i].status == Done)
    // so the last job takes over a pipe from a done one
    && (|s.tasks| == c.pipes + 1 ==>
          forall i | 0 <= i < c.pipes && s.tasks[i].pipe == s.tasks[c.pipes].pipe :: s.tasks[i].status == Done)
  }

  lemma {:induction false} AllPipesCount(n: nat)
    ensures |AllPipes(n)| == n
  {
    if n > 0 {
      AllPipesCount(n - 1);
    }
  }

  lemma InitFewJobs(c: Campaign)
    requires |c.jobs| <= c.pipes + 1
    ensures FewJobs(c, InitState(c))
  {
    AllPipesCount(c.pipes);
  }

  lemma DispatchFewJobs(c: Campaign, s: State, s': State, pipe: nat)
    requires FewJobs(c, s) && Dispatch(s, s', pipe)
    ensures FewJobs(c, s')
  {
    assert |s'.free| == |s.free| - 1;
    if |s'.tasks| < c.pipes {
      assert s'.free != {};
    }
  }

  lemma PollFewJobs(c: Campaign, s: State, s': State)
    requires FewJobs(c, s) && Poll(c, s, s')
    ensures FewJobs(c, s')
  {
  }

  lemma JobFewJobs(c: Campaign, s: State, s': State, i: nat)
    requires FewJobs(c, s) && (Start(c, s, s', i) || End(s, s', i))
    ensures FewJobs(c, s')
  {
  }

  lemma NextFewJobs(c: Campaign, s: State, s': State)
    requires FewJobs(c, s) && Next(c, s, s')
    ensures FewJobs(c, s')
  {
    if pipe :| Dispatch(s, s', pipe) {
      DispatchFewJobs(c, s, s', pipe);
    } else if Poll(c, s, s') {
      PollFewJobs(c, s, s');
    } else if i: nat :| Start(c, s, s', i) || End(s, s', i) {
      JobFewJobs(c, s, s', i);
    }
  }

  lemma {:induction false} FewJobsAlways(c: Campaign, run: seq<State>, i: nat)
    requires |c.jobs| <= c.pipes + 1 && IsRun(c, run) && i < |run|
    ensures FewJobs(c, run[i])
  {
    hide FewJobs;
    if i == 0 {
      InitFewJobs(c);
    } else {
      FewJobsAlways(c, run, i - 1);
      assert Next(c, run[i - 1], run[i]);
      NextFewJobs(c, run[i - 1], run[i]);
    }
  }

  lemma FewJobsExclusive(c: Campaign, s: State)
    requires |c.jobs| <= c.pipes + 1 && Reachable(c, s)
    ensures UnfinishedExclusive(s)
  {
    var run :| IsRun(c, run) && run[|run| - 1] == s;
    FewJobsAlways(c, run, |run| - 1);
  }

  // A single pipe runs one job at a time.

  lemma {:induction false} RunningUpdate(tasks: seq<Task>, i: nat, t: Task)
    requires i < |tasks|
    ensures RunningTasks(tasks[i := t]) ==
            RunningTasks(tasks) - (if tasks[i].status == Running then 1 else 0) + (if t.status == Running then 1 else 0)
  {
    var n := |tasks| - 1;
    if i == n {
      assert tasks[i := t][..n] == tasks[..n];
    } else {
      RunningUpdate(tasks[..n], i, t);
      assert tasks[i := t][..n] == tasks[..n][i := t];
    }
  }

  lemma {:induction false} TwoRunning(tasks: seq<Task>, i: nat, j: nat)
    requires i < j < |tasks| && tasks[i].status == Running && tasks[j].status == Running
    ensures RunningTasks(tasks) >= 2
  {
    var idle := Task("", 0, Waiting, false);
    RunningUpdate(tasks, i, idle);
    RunningUpdate(tasks[i := idle], j, idle);
  }

  lemma NextRunningBound(c: Campaign, s: State, s': State)
    requires RunningTasks(s.tasks) <= c.pipes && Next(c, s, s')
    ensures RunningTasks(s'.tasks) <= c.pipes
  {
    if pipe :| Dispatch(s, s', pipe) {
      assert s'.tasks[..|s.tasks|] == s.tasks;
    } else if Poll(c, s, s') {
      RunningUpdate(s.tasks, s.place.next, s'.tasks[s.place.next]);
    } else if i: nat :| Start(c, s, s', i) || End(s, s', i) {
      RunningUpdate(s.tasks, i, s'.tasks[i]);
    }
  }

  lemma {:induction false} RunningBound(c: Campaign, run: seq<State>, i: nat)
    requires IsRun(c, run) && i < |run|
    ensures RunningTasks(run[i].tasks) <= c.pipes
  {
    if i > 0 {
      RunningBound(c, run, i - 1);
      assert Next(c, run[i - 1], run[i]);
      NextRunningBound(c, run[i - 1], run[i]);
    }
  }

  lemma OnePipeExclusive(c: Campaign, s: State)
    requires c.pipes <= 1 && Reachable(c, s)
    ensures RunningExclusive(s)
  {
    var run :| IsRun(c, run) && run[|run| - 1] == s;
    RunningBound(c, run, |run| - 1);
    forall i, j | 0 <= i < j < |s.tasks|
      ensures !(s.tasks[i].status == Running && s.tasks[j].status == Running)
    {
      if s.tasks[i].status == Running && s.tasks[j].status == Running {
        TwoRunning(s.tasks, i, j);
      }
    }
  }

  // ---------------------------------------------------------------------
  // The loop as written: a run that shares a pipe
  // ---------------------------------------------------------------------

  /** The first `n` tasks, on pipes 0, 1, 2, ... */
  function FirstTasks(c: Campaign, n: nat): (tasks: seq<Task>)
    requires n <= |c.jobs|
    ensures |tasks| == n
    ensures forall i | 0 <= i < n :: tasks[i] == Task(c.jobs[|c.jobs| - 1 - i], i, Waiting, false)
  {
    seq(n, i requires 0 <= i < n => Task(c.jobs[|c.jobs| - 1 - i], i, Waiting, false))
  }

  function FirstRound(c: Campaign, n: nat): State
    requires n <= |c.jobs|
  {
    var free := AllPipes(c.pipes) - AllPipes(n);
    State(c.jobs[..|c.jobs| - n], free, FirstTasks(c, n), AfterLoop(free))
  }

  lemma {:induction false} FirstRoundReachable(c: Campaign, n: nat)
    requires 1 <= c.pipes && n <= c.pipes <= |c.jobs|
    ensures Reachable(c, FirstRound(c, n))
  {
    if n == 0 {
      InitReachable(c);
      assert AllPipes(c.pipes) - AllPipes(0) == AllPipes(c.pipes);
      assert c.pipes - 1 in AllPipes(c.pipes);
      assert FirstRound(c, 0) == InitState(c);
    } else {
      var s, s' := FirstRound(c, n - 1), FirstRound(c, n);
      FirstRoundReachable(c, n - 1);
      assert n - 1 in s.free;
      assert s'.free == s.free - {n - 1};
      assert Dispatch(s, s', n - 1) by {
        assert s'.queue == s.queue[..|s.queue| - 1];
        assert s'.tasks == s.tasks + [Task(s.queue[|s.queue| - 1], n - 1, Waiting, false)];
      }
      assert LoopStep(c, s, s');
      NextReachable(c, s, s');
    }
  }

  /** Polling past tasks that are not done changes nothing. */
  lemma {:induction false} PollPast(c: Campaign, s: State, i: nat)
    requires Reachable(c, s.(place := Polling(i))) && i <= |s.tasks|
    requires forall j | i <= j < |s.tasks| :: s.tasks[j].status != Done
    ensures Reachable(c, s.(place := Polling(|s.tasks|)))
    decreases |s.tasks| - i
  {
    if i < |s.tasks| {
      var here, next := s.(place := Polling(i)), s.(place := Polling(i + 1));
      assert Poll(c, here, next);
      NextReachable(c, here, next);
      PollPast(c, s, i + 1);
    }
  }

  lemma {:induction false} NoneRunning(tasks: seq<Task>)
    requires forall i | 0 <= i < |tasks| :: tasks[i].status != Running
    ensures RunningTasks(tasks) == 0
  {
    if tasks != [] {
      NoneRunning(tasks[..|tasks| - 1]);
    }
  }

  /** Lets the first waiting task run; nothing else runs. */
  lemma StartFirst(c: Campaign, s: State, i: nat) returns (s': State)
    requires Reachable(c, s) && c.pipes >= 1 && i < |s.tasks| && s.tasks[i].status == Waiting
    requires forall j | 0 <= j < i :: s.tasks[j].status == Done
    requires forall j | 0 <= j < |s.tasks| :: s.tasks[j].status != Running
    ensures Reachable(c, s') && s' == s.(tasks := s.tasks[i := s.tasks[i].(status := Running)])
  {
    NoneRunning(s.tasks);
    s' := s.(tasks := s.tasks[i := s.tasks[i].(status := Running)]);
    assert Start(c, s, s', i);
    assert JobStep(c, s, s');
    NextReachable(c, s, s');
  }

  /** Lets the first waiting task run to its end. */
  lemma RunFirst(c: Campaign, s: State, i: nat) returns (s': State)
    requires Reachable(c, s) && c.pipes >= 1 && i < |s.tasks| && s.tasks[i].status == Waiting
    requires forall j | 0 <= j < i :: s.tasks[j].status == Done
    requires forall j | 0 <= j < |s.tasks| :: s.tasks[j].status != Running
    ensures Reachable(c, s') && s' == s.(tasks := s.tasks[i := s.tasks[i].(status := Done)])
  {
    var mid := StartFirst(c, s, i);
    s' := s.(tasks := s.tasks[i := s.tasks[i].(status := Done)]);
    assert s'.tasks == mid.tasks[i := mid.tasks[i].(status := Done)];
    assert End(mid, s', i);
    assert JobStep(c, mid, s');
    NextReachable(c, mid, s');
  }

  /** Lets waiting tasks `i` to `n` run to their ends, one after the other. */
  lemma {:induction false} RunUpTo(c: Campaign, s: State, i: nat, n: nat) returns (s': State)
    requires Reachable(c, s) && c.pipes >= 1 && i <= n <= |s.tasks|
    requires forall j | 0 <= j < i :: s.tasks[j].status == Done
    requires forall j | i <= j < |s.tasks| :: s.tasks[j].status == Waiting
    ensures Reachable(c, s') && s' == s.(tasks := s'.tasks) && |s'.tasks| == |s.tasks|
    ensures forall j | 0 <= j < n :: s'.tasks[j].status == Done
    ensures forall j | n <= j < |s.tasks| :: s'.tasks[j] == s.tasks[j]
    decreases n - i
  {
    if i == n {
      s' := s;
    } else {
      var mid := RunFirst(c, s, i);
      s' := RunUpTo(c, mid, i + 1, n);
    }
  }

  /** Polls task 0, which is done and last held pipe 0, and dispatches a job on it. */
  lemma RedispatchOnZero(c: Campaign, s: State) returns (s': State)
    requires c.mode == Rescan && Reachable(c, s)
    requires s.place == Polling(0) && s.free == {} && s.queue != [] && s.tasks != []
    requires s.tasks[0].status == Done && s.tasks[0].pipe == 0
    requires forall j | 1 <= j < |s.tasks| :: s.tasks[j].status == Waiting
    ensures Reachable(c, s')
    ensures s'.place == Polling(0) && s'.free == {} && s'.queue == s.queue[..|s.queue| - 1]
    ensures |s'.tasks| == |s.tasks| + 1
    ensures s'.tasks[0].status == Done && s'.tasks[0].pipe == 0
    ensures forall j | 1 <= j < |s.tasks| :: s'.tasks[j] == s.tasks[j]
    ensures s'.tasks[|s.tasks|] == Task(s.queue[|s.queue| - 1], 0, Waiting, false)
  {
    var polled := State(s.queue, {0}, s.tasks[0 := s.tasks[0].(harvested := true)], Polling(1));
    assert s.free + {0} == {0};
    assert Poll(c, s, polled);
    NextReachable(c, s, polled);
    PollPast(c, polled, 1);
    var end := polled.(place := Polling(|polled.tasks|));
    var back := end.(place := Choosing);
    assert EndPoll(end, back);
    NextReachable(c, end, back);
    s' := State(s.queue[..|s.queue| - 1], {}, back.tasks + [Task(s.queue[|s.queue| - 1], 0, Waiting, false)], Polling(0));
    assert back.free - {0} == {};
    assert Dispatch(back, s', 0);
    NextReachable(c, back, s');
  }

  /** With two jobs more than pipes, the loop as written dispatches two unfinished
      jobs on pipe 0: it polls the first, long finished job again. */
  lemma ManyJobsShare(c: Campaign) returns (s: State)
    requires c.mode == Rescan && c.pipes >= 1 && |c.jobs| >= c.pipes + 2
    ensures Reachable(c, s)
    ensures |s.tasks| == c.pipes + 2 && s.tasks[0].status == Done
    ensures forall j | 1 <= j < |s.tasks| :: s.tasks[j].status == Waiting
    ensures s.tasks[c.pipes].pipe == s.tasks[c.pipes + 1].pipe == 0
  {
    var n := c.pipes;
    s := FirstRound(c, n);
    FirstRoundReachable(c, n);
    assert s.free == {};
    s := RunFirst(c, s, 0);
    s := RedispatchOnZero(c, s);
    s := RedispatchOnZero(c, s);
  }

  /** With at least two pipes, both jobs on the shared pipe can run at once. */
  lemma ManyJobsCollide(c: Campaign) returns (s: State)
    requires c.mode == Rescan && c.pipes >= 2 && |c.jobs| >= c.pipes + 2
    ensures Reachable(c, s) && !RunningExclusive(s)
  {
    var n := c.pipes;
    s := ManyJobsShare(c);
    s := RunUpTo(c, s, 1, n);
    s := StartFirst(c, s, n);
    var s' := s.(tasks := s.tasks[n + 1 := s.tasks[n + 1].(status := Running)]);
    RunningUpdate(s.tasks, n, s.tasks[n].(status := Done));
    NoneRunning(s.tasks[n := s.tasks[n].(status := Done)]);
    assert Start(c, s, s', n + 1);
    assert JobStep(c, s, s');
    NextReachable(c, s, s');
    s := s';
    assert s.tasks[n].status == Running && s.tasks[n + 1].status == Running;
  }

  /** Exactly when the loop as written never gives two unfinished jobs one pipe. */
  lemma RescanDispatchExclusiveIff(c: Campaign)
    requires c.mode == Rescan && c.pipes >= 1
    ensures (forall s | Reachable(c, s) :: UnfinishedExclusive(s)) <==> |c.jobs| <= c.pipes + 1
  {
    if |c.jobs| <= c.pipes + 1 {
      forall s | Reachable(c, s)
        ensures UnfinishedExclusive(s)
      {
        FewJobsExclusive(c, s);
      }
    } else {
      var s := ManyJobsShare(c);
      assert !UnfinishedExclusive(s);
    }
  }

  /** Exactly when the loop as written never runs two jobs in one CPU window. */
  lemma RescanRunningExclusiveIff(c: Campaign)
    requires c.mode == Rescan
    ensures (forall s | Reachable(c, s) :: RunningExclusive(s)) <==> c.pipes <= 1 || |c.jobs| <= c.pipes + 1
  {
    if c.pipes <= 1 || |c.jobs| <= c.pipes + 1 {
      forall s | Reachable(c, s)
        ensures RunningExclusive(s)
      {
        if c.pipes <= 1 {
          OnePipeExclusive(c, s);
        } else {
          FewJobsExclusive(c, s);
        }
      }
    } else {
      var s := ManyJobsCollide(c);
    }
  }
}
