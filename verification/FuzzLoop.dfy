/** The allocation loop itself, while the jobs it has started move on at any time. Every
    state it passes through is a state of the machine in `Scheduler`, so what is proved
    there about the loop as written holds of it. */
module FuzzLoop {
  import opened Scheduler

  // ---------------------------------------------------------------------
  // Jobs that move while the loop looks elsewhere
  // ---------------------------------------------------------------------

  function Bare(tasks: seq<Task>): State {
    State([], {}, tasks, Choosing)
  }

  ghost predicate IsJobPath(c: Campaign, path: seq<seq<Task>>) {
    path != [] && forall k | 0 <= k < |path| - 1 :: JobStep(c, Bare(path[k]), Bare(path[k + 1]))
  }

  /** Any number of jobs have started or ended. */
  ghost predicate JobsMoved(c: Campaign, before: seq<Task>, after: seq<Task>) {
    exists path :: IsJobPath(c, path) && path[0] == before && path[|path| - 1] == after
  }

  /** `jobs(r, i, tasks)` are the tasks when the loop polls task `i` in round `r`, if
      they were `tasks` at the poll before. */
  type Jobs = (nat, nat, seq<Task>) -> seq<Task>

  ghost predicate Legal(c: Campaign, jobs: Jobs) {
    forall r: nat, i: nat, tasks :: JobsMoved(c, tasks, jobs(r, i, tasks))
  }

  /** From round `since` on, every poll finds task `first` done. */
  ghost predicate DoneBy(jobs: Jobs, first: nat, since: nat) {
    forall r: nat, i: nat, tasks | r >= since && first < |jobs(r, i, tasks)| ::
      jobs(r, i, tasks)[first].status == Done
  }

  /** The same tasks, each done if it was done before. */
  ghost predicate MovedOn(before: seq<Task>, after: seq<Task>) {
    && |before| == |after|
    && (forall i | 0 <= i < |before| :: after[i] == before[i].(status := after[i].status))
    && (forall i | 0 <= i < |before| && before[i].status == Done :: after[i].status == Done)
  }

  lemma {:induction false} PathMovesOn(c: Campaign, path: seq<seq<Task>>, k: nat)
    requires IsJobPath(c, path) && k < |path|
    ensures MovedOn(path[0], path[k])
  {
    if k > 0 {
      PathMovesOn(c, path, k - 1);
      assert JobStep(c, Bare(path[k - 1]), Bare(path[k - 1 + 1]));
    }
  }

  lemma JobsMoveOn(c: Campaign, before: seq<Task>, after: seq<Task>)
    requires JobsMoved(c, before, after)
    ensures MovedOn(before, after)
  {
    var path :| IsJobPath(c, path) && path[0] == before && path[|path| - 1] == after;
    PathMovesOn(c, path, |path| - 1);
  }

  // The premises `Legal` and `DoneBy` can be met together: jobs may always all finish.

  function EndRunning(tasks: seq<Task>, k: nat): (ended: seq<Task>)
    ensures |ended| == |tasks|
  {
    seq(|tasks|, i requires 0 <= i < |tasks| =>
      if i < k && tasks[i].status == Running then tasks[i].(status := Done) else tasks[i])
  }

  function AllDone(tasks: seq<Task>, k: nat): (done: seq<Task>)
    ensures |done| == |tasks|
  {
    seq(|tasks|, i requires 0 <= i < |tasks| => if i < k then tasks[i].(status := Done) else tasks[i])
  }

  lemma MovedFurther(c: Campaign, before: seq<Task>, mid: seq<Task>, after: seq<Task>)
    requires JobsMoved(c, before, mid) && JobStep(c, Bare(mid), Bare(after))
    ensures JobsMoved(c, before, after)
  {
    hide JobStep;
    var path :| IsJobPath(c, path) && path[0] == before && path[|path| - 1] == mid;
    assert IsJobPath(c, path + [after]);
    assert (path + [after])[0] == before && (path + [after])[|path|] == after;
  }

  lemma {:induction false} RunningCanEnd(c: Campaign, tasks: seq<Task>, k: nat)
    requires k <= |tasks|
    ensures JobsMoved(c, tasks, EndRunning(tasks, k))
  {
    if k == 0 {
      assert EndRunning(tasks, 0) == tasks;
      assert IsJobPath(c, [tasks]);
    } else {
      var mid, after := EndRunning(tasks, k - 1), EndRunning(tasks, k);
      RunningCanEnd(c, tasks, k - 1);
      if tasks[k - 1].status == Running {
        assert after == mid[k - 1 := mid[k - 1].(status := Done)];
        assert End(Bare(mid), Bare(after), k - 1);
        MovedFurther(c, tasks, mid, after);
      } else {
        assert after == mid;
      }
    }
  }

  lemma {:induction false} WaitingCanFinish(c: Campaign, before: seq<Task>, tasks: seq<Task>, k: nat)
    requires c.pipes >= 1 && k <= |tasks| && JobsMoved(c, before, tasks)
    requires forall i | 0 <= i < |tasks| :: tasks[i].status != Running
    ensures JobsMoved(c, before, AllDone(tasks, k))
  {
    hide JobsMoved;
    if k == 0 {
      assert AllDone(tasks, 0) == tasks;
    } else {
      var mid, after := AllDone(tasks, k - 1), AllDone(tasks, k);
      WaitingCanFinish(c, before, tasks, k - 1);
      if tasks[k - 1].status == Waiting {
        var running := mid[k - 1 := mid[k - 1].(status := Running)];
        NoneRunning(mid);
        assert Start(c, Bare(mid), Bare(running), k - 1);
        MovedFurther(c, before, mid, running);
        assert after == running[k - 1 := running[k - 1].(status := Done)];
        assert End(Bare(running), Bare(after), k - 1);
        MovedFurther(c, before, running, after);
      } else {
        assert tasks[k - 1] == tasks[k - 1].(status := Done);
        assert after == mid;
      }
    }
  }

  lemma JobsCanFinish(c: Campaign) returns (jobs: Jobs)
    requires c.pipes >= 1
    ensures Legal(c, jobs) && forall first: nat :: DoneBy(jobs, first, 0)
  {
    hide JobsMoved;
    jobs := (r, i, tasks) => AllDone(EndRunning(tasks, |tasks|), |tasks|);
    forall r: nat, i: nat, tasks
      ensures JobsMoved(c, tasks, jobs(r, i, tasks))
    {
      RunningCanEnd(c, tasks, |tasks|);
      WaitingCanFinish(c, tasks, EndRunning(tasks, |tasks|), |tasks|);
    }
  }

  // ---------------------------------------------------------------------
  // The states of the machine that the loop passes through
  // ---------------------------------------------------------------------

  /** The same tasks; only the machine records which ones gave their pipes back. */
  ghost predicate SameTasks(recorded: seq<Task>, tasks: seq<Task>) {
    && |recorded| == |tasks|
    && forall i | 0 <= i < |tasks| :: recorded[i] == tasks[i].(harvested := recorded[i].harvested)
  }

  lemma {:induction false} SameCounts(recorded: seq<Task>, tasks: seq<Task>)
    requires SameTasks(recorded, tasks)
    ensures RunningTasks(recorded) == RunningTasks(tasks) && Dispatched(recorded) == Dispatched(tasks)
  {
    if tasks != [] {
      var n := |tasks| - 1;
      assert recorded[n] == tasks[n].(harvested := recorded[n].harvested);
      SameCounts(recorded[..n], tasks[..n]);
    }
  }

  lemma JobStepReached(c: Campaign, s: State, tasks: seq<Task>, tasks': seq<Task>) returns (s': State)
    requires Reachable(c, s) && SameTasks(s.tasks, tasks) && JobStep(c, Bare(tasks), Bare(tasks'))
    ensures Reachable(c, s') && SameTasks(s'.tasks, tasks') && s' == s.(tasks := s'.tasks)
  {
    hide Reachable, RunningTasks;
    SameCounts(s.tasks, tasks);
    var i: nat :| Start(c, Bare(tasks), Bare(tasks'), i) || End(Bare(tasks), Bare(tasks'), i);
    s' := s.(tasks := s.tasks[i := s.tasks[i].(status := tasks'[i].status)]);
    assert Start(c, s, s', i) || End(s, s', i);
    assert JobStep(c, s, s');
    NextReachable(c, s, s');
  }

  lemma {:induction false} PathReached(c: Campaign, s: State, path: seq<seq<Task>>, k: nat) returns (s': State)
    requires IsJobPath(c, path) && k < |path|
    requires Reachable(c, s) && SameTasks(s.tasks, path[0])
    ensures Reachable(c, s') && SameTasks(s'.tasks, path[k]) && s' == s.(tasks := s'.tasks)
  {
    hide Reachable, SameTasks, JobStep;
    if k == 0 {
      s' := s;
    } else {
      var mid := PathReached(c, s, path, k - 1);
      s' := JobStepReached(c, mid, path[k - 1], path[k - 1 + 1]);
    }
  }

  lemma JobsReached(c: Campaign, s: State, tasks: seq<Task>, tasks': seq<Task>) returns (s': State)
    requires Reachable(c, s) && SameTasks(s.tasks, tasks) && JobsMoved(c, tasks, tasks')
    ensures Reachable(c, s') && SameTasks(s'.tasks, tasks') && s' == s.(tasks := s'.tasks)
  {
    hide Reachable, SameTasks;
    var path :| IsJobPath(c, path) && path[0] == tasks && path[|path| - 1] == tasks';
    s' := PathReached(c, s, path, |path| - 1);
  }

  /** The pipe that polling a task frees. */
  function Freed(t: Task): set<nat> {
    if t.status == Done then {t.pipe} else {}
  }

  lemma PollReached(c: Campaign, s: State, tasks: seq<Task>, i: nat) returns (s': State)
    requires c.mode == Rescan && Reachable(c, s) && SameTasks(s.tasks, tasks) && s.place == Polling(i) && i < |tasks|
    ensures Reachable(c, s') && SameTasks(s'.tasks, tasks)
    ensures s'.queue == s.queue && s'.free == s.free + Freed(tasks[i]) && s'.place == Polling(i + 1)
  {
    hide Reachable;
    if tasks[i].status == Done {
      s' := State(s.queue, s.free + {s.tasks[i].pipe}, s.tasks[i := s.tasks[i].(harvested := true)], Polling(i + 1));
    } else {
      s' := s.(place := Polling(i + 1));
    }
    assert Poll(c, s, s');
    NextReachable(c, s, s');
  }

  class FuzzLoop {
    const npipes: nat
    var pipes: set<nat>
    var fuzzQueue: seq<Job>
    var fuzzTasks: seq<Task>

    constructor (pipeline: seq<Job>, npipes: nat)
      ensures this.npipes == npipes && pipes == AllPipes(npipes) && fuzzQueue == pipeline && fuzzTasks == []
      ensures InRun(Campaign(pipeline, npipes, Rescan), Choosing) && PipesKept()
    {
      this.npipes := npipes;
      pipes, fuzzQueue, fuzzTasks := AllPipes(npipes), pipeline, [];
      AllPipesCount(npipes);
      InitReachable(Campaign(pipeline, npipes, Rescan));
    }

    ghost predicate Shows(s: State)
      reads this
    {
      fuzzQueue == s.queue && pipes == s.free && SameTasks(s.tasks, fuzzTasks)
    }

    /** The loop as written can be at `place` with these queue, pipes and tasks. */
    ghost predicate InRun(c: Campaign, place: Place)
      reads this
    {
      c.mode == Rescan && c.pipes == npipes && exists s :: Reachable(c, s) && Shows(s) && s.place == place
    }

    /** No pipe goes missing without a task. */
    ghost predicate PipesKept()
      reads this
    {
      |pipes| + |fuzzTasks| >= npipes
    }

    /** So every job is queued or dispatched once, in order, on a valid pipe. */
    lemma NothingLost(c: Campaign, place: Place)
      requires InRun(c, place)
      ensures fuzzQueue + Dispatched(fuzzTasks) == c.jobs
      ensures (forall k | k in pipes :: k < npipes) && (forall t | t in fuzzTasks :: t.pipe < npipes)
      ensures npipes >= 1 && place == Exited ==> fuzzQueue == []
    {
      hide Reachable;
      var s :| Reachable(c, s) && Shows(s) && s.place == place;
      ReachableSafe(c, s);
      SameCounts(s.tasks, fuzzTasks);
      forall t | t in fuzzTasks
        ensures t.pipe < npipes
      {
        var i :| 0 <= i < |fuzzTasks| && fuzzTasks[i] == t;
        assert s.tasks[i] in s.tasks;
      }
    }

    /** And up to one job more than pipes, no two unfinished jobs share a CPU window. */
    lemma FewJobsApart(c: Campaign, place: Place, i: nat, j: nat)
      requires InRun(c, place) && |c.jobs| <= npipes + 1
      requires i < j < |fuzzTasks| && fuzzTasks[i].status != Done && fuzzTasks[j].status != Done
      ensures fuzzTasks[i].pipe != fuzzTasks[j].pipe
    {
      hide Reachable;
      var s :| Reachable(c, s) && Shows(s) && s.place == place;
      FewJobsExclusive(c, s);
    }

    /** Takes the last queued job and any free pipe. */
    method DispatchOne(ghost c: Campaign)
      requires InRun(c, Choosing) && fuzzQueue != [] && pipes != {}
      modifies this
      ensures InRun(c, AfterLoop(pipes))
      ensures old(PipesKept()) ==> PipesKept()
      ensures fuzzQueue == old(fuzzQueue)[..|old(fuzzQueue)| - 1]
      ensures exists pipe :: pipe in old(pipes) && pipes == old(pipes) - {pipe} &&
                fuzzTasks == old(fuzzTasks) + [Task(old(fuzzQueue)[|old(fuzzQueue)| - 1], pipe, Waiting, false)]
    {
      hide Reachable;
      ghost var s :| Reachable(c, s) && Shows(s) && s.place == Choosing;
      var p := fuzzQueue[|fuzzQueue| - 1];
      var pipe :| pipe in pipes;
      fuzzQueue := fuzzQueue[..|fuzzQueue| - 1];
      pipes := pipes - {pipe};
      fuzzTasks := fuzzTasks + [Task(p, pipe, Waiting, false)];
      ghost var s' := State(fuzzQueue, pipes, s.tasks + [Task(p, pipe, Waiting, false)], AfterLoop(pipes));
      assert Dispatch(s, s', pipe);
      NextReachable(c, s, s');
      assert Shows(s');
    }

    /** Lets jobs move on, then polls task `i`; a done one gives its pipe back. */
    method PollOne(ghost c: Campaign, jobs: Jobs, round: nat, i: nat)
      requires InRun(c, Polling(i)) && Legal(c, jobs) && i < |fuzzTasks|
      modifies `pipes, `fuzzTasks
      ensures InRun(c, Polling(i + 1)) && MovedOn(old(fuzzTasks), fuzzTasks)
      ensures fuzzTasks == jobs(round, i, old(fuzzTasks))
      ensures pipes == old(pipes) + Freed(fuzzTasks[i])
    {
      hide Reachable, SameTasks;
      ghost var s :| Reachable(c, s) && Shows(s) && s.place == Polling(i);
      ghost var before := fuzzTasks;
      fuzzTasks := jobs(round, i, fuzzTasks);
      JobsMoveOn(c, before, fuzzTasks);
      s := JobsReached(c, s, before, fuzzTasks);
      if fuzzTasks[i].status == Done {
        pipes := pipes + {fuzzTasks[i].pipe};
      }
      s := PollReached(c, s, fuzzTasks, i);
      assert Shows(s);
    }

    /** Polls every task started so far; `answers` says which ones were found done. */
    method PollAll(ghost c: Campaign, jobs: Jobs, round: nat) returns (ghost answers: seq<bool>)
      requires InRun(c, Polling(0)) && Legal(c, jobs)
      modifies `pipes, `fuzzTasks
      ensures InRun(c, AfterLoop(pipes)) && MovedOn(old(fuzzTasks), fuzzTasks)
      ensures |answers| == |fuzzTasks|
      ensures pipes == old(pipes) + set i | 0 <= i < |fuzzTasks| && answers[i] :: fuzzTasks[i].pipe
      ensures forall i | 0 <= i < |fuzzTasks| && answers[i] :: fuzzTasks[i].status == Done
      ensures forall i, since: nat | 0 <= i < |fuzzTasks| && DoneBy(jobs, i, since) && round >= since :: answers[i]
    {
      hide InRun, Legal, Freed;
      answers := [];
      for i := 0 to |fuzzTasks|
        invariant InRun(c, Polling(i)) && MovedOn(old(fuzzTasks), fuzzTasks)
        invariant |answers| == i
        invariant pipes == old(pipes) + set k | 0 <= k < i && answers[k] :: fuzzTasks[k].pipe
        invariant forall k | 0 <= k < i && answers[k] :: fuzzTasks[k].status == Done
        invariant forall k, since: nat | 0 <= k < i && DoneBy(jobs, k, since) && round >= since :: answers[k]
      {
        PollOne(c, jobs, round, i);
        answers := answers + [fuzzTasks[i].status == Done];
        FreedIf(fuzzTasks[i]);
      }
      EndRound(c);
    }

    static lemma FreedIf(t: Task)
      ensures Freed(t) == if t.status == Done then {t.pipe} else {}
    {
    }

    lemma EndRound(c: Campaign)
      requires InRun(c, Polling(|fuzzTasks|))
      ensures InRun(c, AfterLoop(pipes))
    {
      hide Reachable;
      var s :| Reachable(c, s) && Shows(s) && s.place == Polling(|fuzzTasks|);
      var s' := s.(place := AfterLoop(s.free));
      assert EndPoll(s, s');
      NextReachable(c, s, s');
      assert Shows(s');
    }

    lemma ExitReached(c: Campaign)
      requires InRun(c, Choosing) && (fuzzQueue == [] || pipes == {})
      ensures InRun(c, Exited)
    {
      hide Reachable;
      var s :| Reachable(c, s) && Shows(s) && s.place == Choosing;
      var s' := s.(place := Exited);
      assert Exit(s, s');
      NextReachable(c, s, s');
      assert Shows(s');
    }

    /** Runs the loop for at most `limit` rounds of polling. */
    method Run(ghost c: Campaign, jobs: Jobs, limit: nat, ghost first: nat, ghost since: nat) returns (finished: bool)
      requires InRun(c, Choosing) && PipesKept() && Legal(c, jobs)
      modifies this
      ensures InRun(c, if finished then Exited else Polling(0))
      ensures finished && npipes >= 1 ==> fuzzQueue == [] && Dispatched(fuzzTasks) == c.jobs
      ensures !finished ==> pipes == {}
      // once any one task of the first round is done, every remaining job is
      // dispatched within as many rounds of polling
      ensures first < npipes && DoneBy(jobs, first, since) && limit >= since + |old(fuzzQueue)| ==> finished
    {
      hide InRun, Legal;
      var next: nat := 0;
      ghost var njobs := |fuzzQueue|;
      while fuzzQueue != [] && pipes != {}
        invariant InRun(c, Choosing) && PipesKept() && |fuzzQueue| <= njobs
        invariant first < npipes && DoneBy(jobs, first, since) ==> next <= since + njobs - |fuzzQueue|
        decreases |fuzzQueue|
      {
        DispatchOne(c);
        finished, next := WaitForPipe(c, jobs, next, limit, first, since);
        if !finished {
          return;
        }
      }
      ExitReached(c);
      NothingLost(c, Exited);
      assert fuzzQueue == [] ==> fuzzQueue + Dispatched(fuzzTasks) == Dispatched(fuzzTasks);
      finished := true;
    }

    /** Polls until a pipe is free or no more rounds are left. */
    method WaitForPipe(ghost c: Campaign, jobs: Jobs, start: nat, limit: nat, ghost first: nat, ghost since: nat)
      returns (ok: bool, next: nat)
      requires InRun(c, AfterLoop(pipes)) && PipesKept() && Legal(c, jobs)
      modifies `pipes, `fuzzTasks
      ensures InRun(c, AfterLoop(pipes)) && PipesKept() && MovedOn(old(fuzzTasks), fuzzTasks)
      ensures ok <==> pipes != {}
      ensures first < npipes && DoneBy(jobs, first, since) ==>
                next <= Later(start, since) + 1 && (Later(start, since) < limit ==> ok)
    {
      hide InRun, Legal, DoneBy;
      next := start;
      while pipes == {}
        invariant InRun(c, AfterLoop(pipes)) && PipesKept() && MovedOn(old(fuzzTasks), fuzzTasks) && start <= next
        invariant first < npipes && DoneBy(jobs, first, since) ==>
                    next <= Later(start, since) + if pipes == {} then 0 else 1
        decreases limit - next
      {
        if next >= limit {
          return false, next;
        }
        ghost var answers := PollAll(c, jobs, next);
        assert |fuzzTasks| >= npipes;
        assert first < |fuzzTasks| && answers[first] ==> fuzzTasks[first].pipe in pipes;
        next := next + 1;
      }
      ok := true;
    }
  }

  function Later(a: nat, b: nat): nat {
    if a < b then b else a
  }
}
