/** The worker threads that pull trace files from a queue and merge their ranges
    into one locked set, as a state machine over all interleavings. */
module ParallelMerge {
  import opened Common
  import opened RangeSet

  type File = string

  /** The files of the campaign and the outcome of reading each: its ranges, or a
      panic of the thread that reads it. */
  datatype Campaign = Campaign(files: multiset<File>, outcome: File -> Outcome<seq<Range>>)
  {
    ghost predicate Valid() {
      forall f | f in files :: outcome(f).Ok? ==> Ordered(outcome(f).value)
    }

    ghost predicate Readable(f: File) {
      outcome(f).Ok?
    }

    /** The ranges of a readable file, none of any other. */
    function Ranges(f: File): seq<Range> {
      if outcome(f).Ok? then outcome(f).value else []
    }
  }

  /** A worker between two of its steps; `next` is the next range to merge. */
  datatype Worker = Idle | Reading(file: File) | Merging(file: File, next: nat) | Finished | Panicked(file: File)

  /** `merged` records the files whose ranges are all in the set. */
  datatype State = State(
    queue: multiset<File>, workers: seq<Worker>, lock: Option<nat>, db: seq<Range>, merged: multiset<File>)

  // ---------------------------------------------------------------------
  // Steps
  // ---------------------------------------------------------------------

  ghost predicate Init(c: Campaign, nproc: nat, s: State) {
    s == State(c.files, seq(nproc, _ => Idle), None, [], multiset{})
  }

  ghost predicate Pull(s: State, s': State, w: nat, f: File) {
    && w < |s.workers| && s.workers[w] == Idle && f in s.queue
    && s' == s.(queue := s.queue - multiset{f}, workers := s.workers[w := Reading(f)])
  }

  ghost predicate Finish(s: State, s': State, w: nat) {
    && w < |s.workers| && s.workers[w] == Idle && s.queue == multiset{}
    && s' == s.(workers := s.workers[w := Finished])
  }

  ghost predicate Crash(c: Campaign, s: State, s': State, w: nat) {
    && w < |s.workers| && s.workers[w].Reading? && !c.Readable(s.workers[w].file)
    && s' == s.(workers := s.workers[w := Panicked(s.workers[w].file)])
  }

  ghost predicate Acquire(c: Campaign, s: State, s': State, w: nat) {
    && w < |s.workers| && s.workers[w].Reading? && c.Readable(s.workers[w].file) && s.lock == None
    && s' == s.(workers := s.workers[w := Merging(s.workers[w].file, 0)], lock := Some(w))
  }

  ghost predicate MergeOne(c: Campaign, s: State, s': State, w: nat) {
    && w < |s.workers| && s.workers[w].Merging?
    && var Merging(f, k) := s.workers[w];
       && k < |c.Ranges(f)|
       && s' == s.(db := Insert(s.db, c.Ranges(f)[k]), workers := s.workers[w := Merging(f, k + 1)])
  }

  ghost predicate Release(c: Campaign, s: State, s': State, w: nat) {
    && w < |s.workers| && s.workers[w].Merging?
    && var Merging(f, k) := s.workers[w];
       && k == |c.Ranges(f)|
       && s' == s.(workers := s.workers[w := Idle], lock := None, merged := s.merged + multiset{f})
  }

  ghost predicate WorkerStep(c: Campaign, s: State, s': State, w: nat) {
    || (exists f :: Pull(s, s', w, f))
    || Finish(s, s', w) || Crash(c, s, s', w) || Acquire(c, s, s', w) || MergeOne(c, s, s', w) || Release(c, s, s', w)
  }

  ghost predicate Next(c: Campaign, s: State, s': State) {
    exists w: nat :: WorkerStep(c, s, s', w)
  }

  /** A run of any number of workers, with any interleaving. */
  ghost predicate IsRun(c: Campaign, nproc: nat, run: seq<State>) {
    && run != [] && Init(c, nproc, run[0])
    && forall i | 0 <= i < |run| - 1 :: Next(c, run[i], run[i + 1])
  }

  // ---------------------------------------------------------------------
  // What every reachable state keeps
  // ---------------------------------------------------------------------

  /** The file a worker has taken and not merged; a panicked worker keeps its file. */
  function Own(w: Worker): multiset<File> {
    match w
    case Reading(f) => multiset{f}
    case Merging(f, _) => multiset{f}
    case Panicked(f) => multiset{f}
    case _ => multiset{}
  }

  function Held(workers: seq<Worker>): multiset<File> {
    if workers == [] then multiset{} else Own(workers[0]) + Held(workers[1..])
  }

  /** Queued, held and merged files partition the initial bag. */
  ghost predicate FilesConserved(c: Campaign, s: State) {
    s.queue + Held(s.workers) + s.merged == c.files
  }

  /** At most one worker merges, the one that holds the lock. */
  ghost predicate LockHeld(s: State) {
    && (s.lock.Some? ==> s.lock.value < |s.workers|)
    && forall w | 0 <= w < |s.workers| :: s.workers[w].Merging? <==> s.lock == Some(w)
  }

  ghost predicate WorkersOk(c: Campaign, s: State) {
    && (forall w | 0 <= w < |s.workers| :: WorkerOk(c, s, s.workers[w]))
    && (forall f | f in s.merged :: c.Readable(f))
  }

  ghost predicate WorkerOk(c: Campaign, s: State, w: Worker) {
    match w
    case Panicked(f) => !c.Readable(f)
    case Merging(f, k) => c.Readable(f) && k <= |c.Ranges(f)|
    case Finished => s.queue == multiset{}
    case _ => true
  }

  /** The ranges the lock holder has merged so far. */
  function Partial(c: Campaign, s: State): seq<Range> {
    if s.lock.Some? && s.lock.value < |s.workers| && s.workers[s.lock.value].Merging?
       && s.workers[s.lock.value].next <= |c.Ranges(s.workers[s.lock.value].file)|
    then c.Ranges(s.workers[s.lock.value].file)[..s.workers[s.lock.value].next]
    else []
  }

  ghost predicate FilesCover(c: Campaign, files: multiset<File>, a: nat) {
    exists f :: f in files && Covers(c.Ranges(f), a)
  }

  /** The set holds the ranges of the merged files and of the file being merged. */
  ghost predicate DbMeaning(c: Campaign, s: State) {
    && Canonical(s.db)
    && forall a :: Covers(s.db, a) <==> FilesCover(c, s.merged, a) || Covers(Partial(c, s), a)
  }

  ghost predicate Inv(c: Campaign, s: State) {
    FilesConserved(c, s) && LockHeld(s) && WorkersOk(c, s) && DbMeaning(c, s)
  }

  lemma {:induction false} HeldUpdate(workers: seq<Worker>, w: nat, x: Worker)
    requires w < |workers|
    ensures Held(workers[w := x]) + Own(workers[w]) == Held(workers) + Own(x)
  {
    hide Own;
    var after := workers[w := x];
    if w == 0 {
      assert after[1..] == workers[1..];
    } else {
      HeldUpdate(workers[1..], w - 1, x);
      assert after[1..] == workers[1..][w - 1 := x];
      var own, rest, rest' := Own(workers[0]), Held(workers[1..]), Held(after[1..]);
      assert Held(after) == own + rest' && Held(workers) == own + rest;
      assert own + rest' + Own(workers[w]) == own + (rest' + Own(workers[w]));
      assert own + rest + Own(x) == own + (rest + Own(x));
    }
  }

  lemma {:induction false} HeldIncludes(workers: seq<Worker>, w: nat)
    requires w < |workers|
    ensures Own(workers[w]) <= Held(workers)
  {
    hide Own;
    if w > 0 {
      HeldIncludes(workers[1..], w - 1);
    }
  }

  lemma {:induction false} IdleHoldsNothing(n: nat)
    ensures Held(seq(n, _ => Idle)) == multiset{}
  {
    if n > 0 {
      IdleHoldsNothing(n - 1);
      assert seq(n, _ => Idle)[1..] == seq(n - 1, _ => Idle);
    }
  }

  lemma InitInv(c: Campaign, nproc: nat, s: State)
    requires Init(c, nproc, s)
    ensures Inv(c, s)
  {
    IdleHoldsNothing(nproc);
  }

  /** Queue, one worker and merged bag together. */
  function Bag(s: State, w: nat): multiset<File>
    requires w < |s.workers|
  {
    s.queue + Own(s.workers[w]) + s.merged
  }

  /** Only worker `w` changes, and files move only between queue, worker and merged bag. */
  ghost predicate MovesFiles(s: State, s': State, w: nat) {
    && w < |s.workers| == |s'.workers| && s'.workers == s.workers[w := s'.workers[w]]
    && Bag(s', w) == Bag(s, w)
  }

  lemma PullMovesFiles(s: State, s': State, w: nat, f: File)
    requires Pull(s, s', w, f)
    ensures MovesFiles(s, s', w)
  {
    assert s.queue == s'.queue + multiset{f};
    assert s'.queue + multiset{f} + s.merged == s.queue + multiset{} + s.merged;
  }

  lemma FinishMovesFiles(s: State, s': State, w: nat)
    requires Finish(s, s', w)
    ensures MovesFiles(s, s', w)
  {
  }

  lemma CrashMovesFiles(c: Campaign, s: State, s': State, w: nat)
    requires Crash(c, s, s', w)
    ensures MovesFiles(s, s', w)
  {
  }

  lemma AcquireMovesFiles(c: Campaign, s: State, s': State, w: nat)
    requires Acquire(c, s, s', w)
    ensures MovesFiles(s, s', w)
  {
  }

  lemma MergeOneMovesFiles(c: Campaign, s: State, s': State, w: nat)
    requires MergeOne(c, s, s', w)
    ensures MovesFiles(s, s', w)
  {
    hide Insert;
  }

  lemma ReleaseMovesFiles(c: Campaign, s: State, s': State, w: nat)
    requires Release(c, s, s', w)
    ensures MovesFiles(s, s', w)
  {
    var f := s.workers[w].file;
    assert s.queue + multiset{} + (s.merged + multiset{f}) == s.queue + multiset{f} + s.merged;
  }

  lemma StepMovesFiles(c: Campaign, s: State, s': State, w: nat)
    requires WorkerStep(c, s, s', w)
    ensures MovesFiles(s, s', w)
  {
    hide Pull, Finish, Crash, Acquire, MergeOne, Release, MovesFiles;
    if f :| Pull(s, s', w, f) {
      PullMovesFiles(s, s', w, f);
    } else if Finish(s, s', w) {
      FinishMovesFiles(s, s', w);
    } else if Crash(c, s, s', w) {
      CrashMovesFiles(c, s, s', w);
    } else if Acquire(c, s, s', w) {
      AcquireMovesFiles(c, s, s', w);
    } else if MergeOne(c, s, s', w) {
      MergeOneMovesFiles(c, s, s', w);
    } else {
      ReleaseMovesFiles(c, s, s', w);
    }
  }

  lemma StepConserves(c: Campaign, s: State, s': State, w: nat)
    requires FilesConserved(c, s) && WorkerStep(c, s, s', w)
    ensures FilesConserved(c, s')
  {
    hide Held, Own, WorkerStep;
    StepMovesFiles(c, s, s', w);
    HeldUpdate(s.workers, w, s'.workers[w]);
    var before, after := Held(s.workers), Held(s'.workers);
    var own, own' := Own(s.workers[w]), Own(s'.workers[w]);
    forall f
      ensures (s'.queue + after + s'.merged)[f] == c.files[f]
    {
      assert (after + own)[f] == (before + own')[f];
      assert (s'.queue + own' + s'.merged)[f] == (s.queue + own + s.merged)[f];
      assert (s.queue + before + s.merged)[f] == c.files[f];
    }
  }

  /** What a step does to the lock. */
  ghost predicate LockChange(s: State, s': State, w: nat) {
    && w < |s.workers| == |s'.workers| && s'.workers == s.workers[w := s'.workers[w]]
    && var before, after := s.workers[w].Merging?, s'.workers[w].Merging?;
       || (s'.lock == s.lock && before == after)
       || (s.lock == None && s'.lock == Some(w) && after)
       || (before && s'.lock == None && !after)
  }

  lemma StepChangesLock(c: Campaign, s: State, s': State, w: nat)
    requires WorkerStep(c, s, s', w)
    ensures LockChange(s, s', w)
  {
    StepMovesFiles(c, s, s', w);
  }

  lemma StepKeepsLock(c: Campaign, s: State, s': State, w: nat)
    requires LockHeld(s) && WorkerStep(c, s, s', w)
    ensures LockHeld(s')
  {
    hide WorkerStep;
    StepChangesLock(c, s, s', w);
  }

  lemma StepLeavesOthers(c: Campaign, s: State, s': State, w: nat)
    requires WorkerStep(c, s, s', w)
    ensures w < |s.workers| == |s'.workers| && s'.workers == s.workers[w := s'.workers[w]]
    ensures s.queue == multiset{} ==> s'.queue == multiset{}
  {
    StepMovesFiles(c, s, s', w);
  }

  lemma StepKeepsOwnWorker(c: Campaign, s: State, s': State, w: nat)
    requires w < |s.workers| && WorkerOk(c, s, s.workers[w]) && WorkerStep(c, s, s', w)
    ensures w < |s'.workers| && WorkerOk(c, s', s'.workers[w])
    ensures forall f | f in s'.merged :: f in s.merged || c.Readable(f)
  {
  }

  lemma StepKeepsWorkers(c: Campaign, s: State, s': State, w: nat)
    requires WorkersOk(c, s) && WorkerStep(c, s, s', w)
    ensures WorkersOk(c, s')
  {
    hide WorkerStep;
    StepLeavesOthers(c, s, s', w);
    assert WorkerOk(c, s, s.workers[w]);
    StepKeepsOwnWorker(c, s, s', w);
    forall v | 0 <= v < |s'.workers| && v != w
      ensures WorkerOk(c, s', s'.workers[v])
    {
      assert WorkerOk(c, s, s.workers[v]);
    }
  }

  lemma HeldFileInCampaign(c: Campaign, s: State, w: nat)
    requires FilesConserved(c, s) && w < |s.workers| && s.workers[w].Merging?
    ensures s.workers[w].file in c.files
  {
    HeldIncludes(s.workers, w);
    assert s.workers[w].file in Own(s.workers[w]);
    assert s.workers[w].file in Held(s.workers);
  }

  lemma MergeOneMeaning(c: Campaign, s: State, s': State, w: nat)
    requires c.Valid() && Inv(c, s) && MergeOne(c, s, s', w)
    ensures DbMeaning(c, s')
  {
    var Merging(f, k) := s.workers[w];
    var r := c.Ranges(f)[k];
    HeldFileInCampaign(c, s, w);
    InsertCanonical(s.db, r);
    assert Partial(c, s) == c.Ranges(f)[..k];
    assert Partial(c, s') == c.Ranges(f)[..k + 1];
    assert c.Ranges(f)[..k + 1][..k] == c.Ranges(f)[..k];
    forall a
      ensures Covers(s'.db, a) <==> FilesCover(c, s'.merged, a) || Covers(Partial(c, s'), a)
    {
      InsertCovers(s.db, r, a);
      CoversSnoc(c.Ranges(f)[..k + 1], a);
    }
  }

  lemma ReleaseMeaning(c: Campaign, s: State, s': State, w: nat)
    requires Inv(c, s) && Release(c, s, s', w)
    ensures DbMeaning(c, s')
  {
    var Merging(f, k) := s.workers[w];
    assert Partial(c, s) == c.Ranges(f);
    assert Partial(c, s') == [];
    forall a
      ensures Covers(s'.db, a) <==> FilesCover(c, s'.merged, a) || Covers(Partial(c, s'), a)
    {
      assert FilesCover(c, s'.merged, a) <==> FilesCover(c, s.merged, a) || Covers(c.Ranges(f), a) by {
        assert forall x :: x in s'.merged <==> x in s.merged || x == f;
      }
    }
  }

  /** No other step touches the set or what is being merged. */
  lemma OtherKeepsSet(c: Campaign, s: State, s': State, w: nat)
    requires LockHeld(s) && WorkerStep(c, s, s', w) && !MergeOne(c, s, s', w) && !Release(c, s, s', w)
    ensures s'.db == s.db && s'.merged == s.merged && Partial(c, s') == Partial(c, s)
  {
    hide MergeOne, Release;
  }

  lemma OtherMeaning(c: Campaign, s: State, s': State, w: nat)
    requires Inv(c, s) && WorkerStep(c, s, s', w) && !MergeOne(c, s, s', w) && !Release(c, s, s', w)
    ensures DbMeaning(c, s')
  {
    hide WorkerStep, MergeOne, Release, Partial, FilesCover, Covers, Canonical, LockHeld;
    OtherKeepsSet(c, s, s', w);
  }

  /** Every step of every worker keeps the invariant. */
  lemma StepInv(c: Campaign, s: State, s': State)
    requires c.Valid() && Inv(c, s) && Next(c, s, s')
    ensures Inv(c, s')
  {
    hide DbMeaning, LockHeld, WorkersOk, FilesConserved;
    var w: nat :| WorkerStep(c, s, s', w);
    StepConserves(c, s, s', w);
    StepKeepsLock(c, s, s', w);
    StepKeepsWorkers(c, s, s', w);
    if MergeOne(c, s, s', w) {
      MergeOneMeaning(c, s, s', w);
    } else if Release(c, s, s', w) {
      ReleaseMeaning(c, s, s', w);
    } else {
      OtherMeaning(c, s, s', w);
    }
  }

  /** The invariant holds in every state of every run. */
  lemma {:induction false} RunInv(c: Campaign, nproc: nat, run: seq<State>, i: nat)
    requires c.Valid() && IsRun(c, nproc, run) && i < |run|
    ensures Inv(c, run[i])
    ensures |run[i].workers| == nproc
  {
    hide Inv;
    if i == 0 {
      InitInv(c, nproc, run[0]);
    } else {
      RunInv(c, nproc, run, i - 1);
      assert Next(c, run[i - 1], run[i]);
      StepInv(c, run[i - 1], run[i]);
    }
  }

  // ---------------------------------------------------------------------
  // The end of a run
  // ---------------------------------------------------------------------

  ghost predicate AllStopped(s: State) {
    forall w | 0 <= w < |s.workers| :: s.workers[w].Finished? || s.workers[w].Panicked?
  }

  /** The same work done by one thread, file by file. */
  ghost function Sequential(c: Campaign, order: seq<File>): seq<Range> {
    if order == [] then []
    else InsertAll(Sequential(c, order[..|order| - 1]), c.Ranges(order[|order| - 1]))
  }

  lemma {:induction false} SequentialMeaning(c: Campaign, order: seq<File>)
    requires c.Valid() && multiset(order) <= c.files
    ensures Canonical(Sequential(c, order))
    ensures forall a :: Covers(Sequential(c, order), a) <==> FilesCover(c, multiset(order), a)
  {
    if order != [] {
      var init, last := order[..|order| - 1], order[|order| - 1];
      assert order == init + [last];
      assert last in multiset(order) && last in c.files;
      SequentialMeaning(c, init);
      InsertAllMeaning(Sequential(c, init), c.Ranges(last));
      forall a
        ensures Covers(Sequential(c, order), a) <==> FilesCover(c, multiset(order), a)
      {
        assert forall f :: f in multiset(order) <==> f in multiset(init) || f == last;
      }
    }
  }

  lemma {:induction false} StoppedHoldUnreadable(c: Campaign, workers: seq<Worker>, f: File)
    requires forall w | 0 <= w < |workers| :: workers[w].Finished? || workers[w].Panicked?
    requires forall w | 0 <= w < |workers| && workers[w].Panicked? :: !c.Readable(workers[w].file)
    requires f in Held(workers)
    ensures !c.Readable(f)
  {
    if f !in Own(workers[0]) {
      StoppedHoldUnreadable(c, workers[1..], f);
    }
  }

  /** When all workers have stopped with the queue drained, the set is that of one
      thread going through the files in any order: the number of workers and the
      interleaving do not matter, and only unreadable files are missing. */
  lemma MergeIsSchedulingIndependent(c: Campaign, nproc: nat, run: seq<State>, order: seq<File>)
    requires c.Valid() && IsRun(c, nproc, run)
    requires var s := run[|run| - 1]; AllStopped(s) && s.queue == multiset{}
    requires multiset(order) == c.files
    ensures run[|run| - 1].db == Sequential(c, order)
  {
    hide Canonical, Covers;
    var s := run[|run| - 1];
    RunInv(c, nproc, run, |run| - 1);
    forall w | 0 <= w < |s.workers| && s.workers[w].Panicked?
      ensures !c.Readable(s.workers[w].file)
    {
      assert WorkerOk(c, s, s.workers[w]);
    }
    SequentialMeaning(c, order);
    assert Partial(c, s) == [];
    forall a
      ensures Covers(s.db, a) <==> Covers(Sequential(c, order), a)
    {
      NothingCovered(a);
      if FilesCover(c, c.files, a) {
        var f :| f in c.files && Covers(c.Ranges(f), a);
        if f in Held(s.workers) {
          StoppedHoldUnreadable(c, s.workers, f);
        }
        assert f in s.merged;
      }
      assert forall f :: f in s.merged ==> f in c.files;
    }
    CanonicalUnique(s.db, Sequential(c, order));
  }

  lemma NothingCovered(a: nat)
    ensures !Covers([], a)
  {
  }

  ghost predicate SomeFinished(s: State) {
    exists w :: 0 <= w < |s.workers| && s.workers[w].Finished?
  }

  /** The queue is drained as soon as one worker stops without a panic. */
  lemma FinishedDrainsQueue(c: Campaign, nproc: nat, run: seq<State>, i: nat)
    requires c.Valid() && IsRun(c, nproc, run) && i < |run| && SomeFinished(run[i])
    ensures run[i].queue == multiset{}
  {
    RunInv(c, nproc, run, i);
    var w :| 0 <= w < |run[i].workers| && run[i].workers[w].Finished?;
    assert WorkerOk(c, run[i], run[i].workers[w]);
  }

  lemma {:induction false} AllPanickedHoldOneEach(workers: seq<Worker>)
    requires forall w | 0 <= w < |workers| :: workers[w].Panicked?
    ensures |Held(workers)| == |workers|
  {
    if workers != [] {
      AllPanickedHoldOneEach(workers[1..]);
    }
  }

  lemma SubBagCount<T>(a: multiset<T>, b: multiset<T>)
    requires a <= b
    ensures |a| <= |b|
  {
    assert b == a + (b - a);
  }

  /** The unreadable files, as often as they occur. */
  ghost predicate IsUnreadable(c: Campaign, unreadable: multiset<File>) {
    forall f :: unreadable[f] == if c.Readable(f) then 0 else c.files[f]
  }

  /** If every worker panicked, each lost a different unreadable file. */
  lemma PanicsCount(c: Campaign, s: State, unreadable: multiset<File>)
    requires Inv(c, s) && IsUnreadable(c, unreadable)
    requires forall w | 0 <= w < |s.workers| :: s.workers[w].Panicked?
    ensures |s.workers| <= |unreadable|
  {
    AllPanickedHoldOneEach(s.workers);
    forall w | 0 <= w < |s.workers|
      ensures !c.Readable(s.workers[w].file)
    {
      assert WorkerOk(c, s, s.workers[w]);
    }
    forall f
      ensures Held(s.workers)[f] <= unreadable[f]
    {
      if f in Held(s.workers) {
        StoppedHoldUnreadable(c, s.workers, f);
        assert Held(s.workers)[f] <= (s.queue + Held(s.workers) + s.merged)[f];
      }
    }
    SubBagCount(Held(s.workers), unreadable);
  }

  /** So a run whose workers outnumber its unreadable files loses nothing else. */
  lemma FewPanicsLoseNothing(c: Campaign, nproc: nat, run: seq<State>, order: seq<File>, unreadable: multiset<File>)
    requires c.Valid() && IsRun(c, nproc, run) && AllStopped(run[|run| - 1])
    requires multiset(order) == c.files
    requires IsUnreadable(c, unreadable) && |unreadable| < nproc
    ensures run[|run| - 1].db == Sequential(c, order)
  {
    var s := run[|run| - 1];
    RunInv(c, nproc, run, |run| - 1);
    if forall w | 0 <= w < |s.workers| :: s.workers[w].Panicked? {
      PanicsCount(c, s, unreadable);
    }
    assert SomeFinished(s);
    FinishedDrainsQueue(c, nproc, run, |run| - 1);
    MergeIsSchedulingIndependent(c, nproc, run, order);
  }

  // With as many unreadable files as workers, everything else can be lost.

  /** Some elements of a bag, as many as asked for. */
  lemma {:induction false} SomeOf<T>(bag: multiset<T>, n: nat) returns (p: seq<T>)
    requires n <= |bag|
    ensures |p| == n && multiset(p) <= bag
  {
    if n == 0 {
      p := [];
    } else {
      var x :| x in bag;
      var q := SomeOf(bag - multiset{x}, n - 1);
      p := q + [x];
    }
  }

  /** The first `k` workers have panicked on one file of `lost` each. */
  function PanickedWorkers(nproc: nat, lost: seq<File>, k: nat): (workers: seq<Worker>)
    requires k <= |lost| == nproc
    ensures |workers| == nproc
  {
    seq(nproc, w requires 0 <= w < nproc => if w < k then Panicked(lost[w]) else Idle)
  }

  function PanickedState(c: Campaign, nproc: nat, lost: seq<File>, k: nat): State
    requires k <= |lost| == nproc
  {
    State(c.files - multiset(lost[..k]), PanickedWorkers(nproc, lost, k), None, [], multiset{})
  }

  lemma PanickedWorkersStep(nproc: nat, lost: seq<File>, k: nat)
    requires k < |lost| == nproc
    ensures PanickedWorkers(nproc, lost, k)[k] == Idle
    ensures PanickedWorkers(nproc, lost, k + 1) == PanickedWorkers(nproc, lost, k)[k := Panicked(lost[k])]
  {
  }

  lemma LostStep(files: multiset<File>, lost: seq<File>, k: nat)
    requires k < |lost| && multiset(lost) <= files
    ensures lost[k] in files - multiset(lost[..k])
    ensures files - multiset(lost[..k + 1]) == files - multiset(lost[..k]) - multiset{lost[k]}
  {
    assert lost[..k + 1] == lost[..k] + [lost[k]];
    assert lost == lost[..k + 1] + lost[k + 1..];
  }

  lemma PullIsNext(c: Campaign, s: State, s': State, w: nat, f: File)
    requires Pull(s, s', w, f)
    ensures Next(c, s, s')
  {
    assert WorkerStep(c, s, s', w);
  }

  lemma CrashIsNext(c: Campaign, s: State, s': State, w: nat)
    requires Crash(c, s, s', w)
    ensures Next(c, s, s')
  {
    assert WorkerStep(c, s, s', w);
  }

  lemma PanicStep(c: Campaign, nproc: nat, lost: seq<File>, k: nat) returns (mid: State)
    requires k < |lost| == nproc && multiset(lost) <= c.files && !c.Readable(lost[k])
    ensures Next(c, PanickedState(c, nproc, lost, k), mid)
    ensures Next(c, mid, PanickedState(c, nproc, lost, k + 1))
  {
    hide PanickedWorkers, Next;
    var s, s', f := PanickedState(c, nproc, lost, k), PanickedState(c, nproc, lost, k + 1), lost[k];
    PanickedWorkersStep(nproc, lost, k);
    LostStep(c.files, lost, k);
    mid := s.(queue := s'.queue, workers := s.workers[k := Reading(f)]);
    PullIsNext(c, s, mid, k, f);
    assert s'.workers == mid.workers[k := Panicked(f)];
    CrashIsNext(c, mid, s', k);
  }

  lemma {:induction false} PanicRun(c: Campaign, nproc: nat, lost: seq<File>, k: nat) returns (run: seq<State>)
    requires k <= |lost| == nproc && multiset(lost) <= c.files
    requires forall f | f in lost :: !c.Readable(f)
    ensures IsRun(c, nproc, run) && run[|run| - 1] == PanickedState(c, nproc, lost, k)
  {
    hide PanickedState, Next;
    if k == 0 {
      run := [PanickedState(c, nproc, lost, 0)];
      NonePanicked(c, nproc, lost);
    } else {
      var before := PanicRun(c, nproc, lost, k - 1);
      var mid := PanicStep(c, nproc, lost, k - 1);
      run := before + [mid] + [PanickedState(c, nproc, lost, k)];
    }
  }

  lemma NonePanicked(c: Campaign, nproc: nat, lost: seq<File>)
    requires |lost| == nproc
    ensures Init(c, nproc, PanickedState(c, nproc, lost, 0))
  {
    assert lost[..0] == [];
    assert PanickedState(c, nproc, lost, 0).workers == seq(nproc, _ => Idle);
  }

  /** With as many unreadable files as workers, a run in which every worker panics on
      its first file, and nothing is merged at all. */
  lemma ManyPanicsLoseAll(c: Campaign, nproc: nat, unreadable: multiset<File>) returns (run: seq<State>)
    requires IsUnreadable(c, unreadable) && |unreadable| >= nproc
    ensures IsRun(c, nproc, run) && AllStopped(run[|run| - 1]) && run[|run| - 1].db == []
  {
    var lost := SomeOf(unreadable, nproc);
    assert unreadable <= c.files;
    forall f | f in lost
      ensures !c.Readable(f)
    {
      assert f in multiset(lost);
    }
    run := PanicRun(c, nproc, lost, nproc);
  }

  ghost predicate NoRanges(c: Campaign) {
    forall f | f in c.files :: c.Ranges(f) == []
  }

  lemma NothingToCover(c: Campaign, files: multiset<File>, a: nat)
    requires NoRanges(c) && files <= c.files
    ensures !FilesCover(c, files, a)
  {
    hide Campaign.Ranges;
    assert forall f | f in files :: f in c.files;
    NothingCovered(a);
  }

  lemma SequentialEmptyIff(c: Campaign, order: seq<File>)
    requires c.Valid() && multiset(order) == c.files
    ensures Sequential(c, order) == [] <==> NoRanges(c)
  {
    hide Covers, Canonical, Sequential;
    SequentialMeaning(c, order);
    if NoRanges(c) {
      assert Canonical([]) by {
        NothingCanonical();
      }
      forall a
        ensures Covers(Sequential(c, order), a) <==> Covers([], a)
      {
        NothingToCover(c, c.files, a);
        NothingCovered(a);
      }
      CanonicalUnique(Sequential(c, order), []);
    } else {
      var f :| f in c.files && c.Ranges(f) != [];
      var a := c.Ranges(f)[0].lo;
      assert Covers(c.Ranges(f), a) by {
        FirstCovered(c.Ranges(f));
      }
      assert FilesCover(c, multiset(order), a);
      NothingCovered(a);
    }
  }

  lemma NothingCanonical()
    ensures Canonical([])
  {
  }

  lemma FirstCovered(rs: seq<Range>)
    requires Ordered(rs) && rs != []
    ensures Covers(rs, rs[0].lo)
  {
    assert In(rs[0].lo, rs[0]);
  }

  /** Where there are no ranges, no run finds any. */
  lemma NoRangesNoneFound(c: Campaign, nproc: nat, run: seq<State>, i: nat)
    requires c.Valid() && IsRun(c, nproc, run) && i < |run| && NoRanges(c)
    ensures run[i].db == []
  {
    hide Covers, Canonical, Campaign.Ranges;
    var s := run[i];
    RunInv(c, nproc, run, i);
    NothingCanonical();
    assert forall f :: s.merged[f] <= (s.queue + Held(s.workers) + s.merged)[f];
    assert Partial(c, s) == [] by {
      NothingPartial(c, s);
    }
    forall a
      ensures Covers(s.db, a) <==> Covers([], a)
    {
      NothingToCover(c, s.merged, a);
      NothingCovered(a);
    }
    CanonicalUnique(s.db, []);
  }

  lemma NothingPartial(c: Campaign, s: State)
    requires Inv(c, s) && NoRanges(c)
    ensures Partial(c, s) == []
  {
    if s.lock.Some? {
      HeldFileInCampaign(c, s, s.lock.value);
    }
  }

  /** However the workers are scheduled, the set ends up as that of one thread. */
  ghost predicate NothingLost(c: Campaign, nproc: nat, order: seq<File>) {
    forall run: seq<State> | IsRun(c, nproc, run) && AllStopped(run[|run| - 1]) ::
      run[|run| - 1].db == Sequential(c, order)
  }

  /** Exactly when no schedule can lose anything: the workers outnumber the unreadable
      files, or the readable ones have no ranges. */
  lemma NothingLostIff(c: Campaign, nproc: nat, order: seq<File>, unreadable: multiset<File>)
    requires c.Valid() && multiset(order) == c.files && IsUnreadable(c, unreadable)
    ensures NothingLost(c, nproc, order) <==> |unreadable| < nproc || NoRanges(c)
  {
    hide Init, Next, AllStopped, IsUnreadable, Sequential, NoRanges;
    SequentialEmptyIff(c, order);
    if |unreadable| < nproc || NoRanges(c) {
      forall run: seq<State> | IsRun(c, nproc, run) && AllStopped(run[|run| - 1])
        ensures run[|run| - 1].db == Sequential(c, order)
      {
        if |unreadable| < nproc {
          FewPanicsLoseNothing(c, nproc, run, order, unreadable);
        } else {
          NoRangesNoneFound(c, nproc, run, |run| - 1);
        }
      }
    } else {
      var run := ManyPanicsLoseAll(c, nproc, unreadable);
    }
  }

  /** No state is stuck: until all workers have stopped, one of them can move. */
  lemma NoDeadlock(c: Campaign, s: State) returns (s': State)
    requires Inv(c, s) && !AllStopped(s)
    ensures Next(c, s, s')
  {
    var w :| 0 <= w < |s.workers| && !s.workers[w].Finished? && !s.workers[w].Panicked?;
    if s.lock.Some? {
      w := s.lock.value;
    }
    assert WorkerOk(c, s, s.workers[w]);
    match s.workers[w] {
      case Idle =>
        if s.queue == multiset{} {
          s' := s.(workers := s.workers[w := Finished]);
          assert Finish(s, s', w);
        } else {
          var f :| f in s.queue;
          s' := s.(queue := s.queue - multiset{f}, workers := s.workers[w := Reading(f)]);
          assert Pull(s, s', w, f);
        }
      case Reading(f) =>
        if c.Readable(f) {
          s' := s.(workers := s.workers[w := Merging(f, 0)], lock := Some(w));
          assert Acquire(c, s, s', w);
        } else {
          s' := s.(workers := s.workers[w := Panicked(f)]);
          assert Crash(c, s, s', w);
        }
      case Merging(f, k) =>
        if k < |c.Ranges(f)| {
          s' := s.(db := Insert(s.db, c.Ranges(f)[k]), workers := s.workers[w := Merging(f, k + 1)]);
          assert MergeOne(c, s, s', w);
        } else {
          s' := s.(workers := s.workers[w := Idle], lock := None, merged := s.merged + multiset{f});
          assert Release(c, s, s', w);
        }
      case _ =>
    }
    assert WorkerStep(c, s, s', w);
  }

  // ---------------------------------------------------------------------
  // Every run ends
  // ---------------------------------------------------------------------

  /** More than the steps a queued file still needs. */
  function FileCost(c: Campaign, f: File): nat {
    |c.Ranges(f)| + 4
  }

  ghost function QueueCost(c: Campaign, queue: multiset<File>): nat
    decreases |queue|
  {
    if queue == multiset{} then 0
    else
      var f :| f in queue;
      FileCost(c, f) + QueueCost(c, queue - multiset{f})
  }

  /** More than the steps a worker takes before it is idle again, and to stop. */
  function WorkerCost(c: Campaign, w: Worker): nat {
    match w
    case Idle => 1
    case Reading(f) => FileCost(c, f)
    case Merging(f, k) => if k <= |c.Ranges(f)| then |c.Ranges(f)| - k + 2 else 0
    case _ => 0
  }

  function WorkersCost(c: Campaign, workers: seq<Worker>): nat {
    if workers == [] then 0 else WorkerCost(c, workers[0]) + WorkersCost(c, workers[1..])
  }

  ghost function Cost(c: Campaign, s: State): nat {
    QueueCost(c, s.queue) + WorkersCost(c, s.workers)
  }

  lemma QueueCostSome(c: Campaign, queue: multiset<File>) returns (f: File)
    requires queue != multiset{}
    ensures f in queue && QueueCost(c, queue) == FileCost(c, f) + QueueCost(c, queue - multiset{f})
  {
    f :| f in queue && QueueCost(c, queue) == FileCost(c, f) + QueueCost(c, queue - multiset{f});
  }

  lemma {:induction false} QueueCostWithout(c: Campaign, queue: multiset<File>, f: File)
    requires f in queue
    ensures QueueCost(c, queue) == FileCost(c, f) + QueueCost(c, queue - multiset{f})
    decreases |queue|
  {
    hide QueueCost, FileCost;
    var g := QueueCostSome(c, queue);
    if g != f {
      QueueCostWithout(c, queue - multiset{g}, f);
      QueueCostWithout(c, queue - multiset{f}, g);
      assert queue - multiset{g} - multiset{f} == queue - multiset{f} - multiset{g};
    }
  }

  lemma {:induction false} WorkersCostUpdate(c: Campaign, workers: seq<Worker>, w: nat, x: Worker)
    requires w < |workers|
    ensures WorkersCost(c, workers[w := x]) == WorkersCost(c, workers) - WorkerCost(c, workers[w]) + WorkerCost(c, x)
  {
    hide WorkerCost;
    var after := workers[w := x];
    if w == 0 {
      assert after[1..] == workers[1..];
    } else {
      WorkersCostUpdate(c, workers[1..], w - 1, x);
      assert after[1..] == workers[1..][w - 1 := x];
    }
  }

  /** What one step costs the worker and the queue. */
  lemma WorkerStepCosts(c: Campaign, s: State, s': State, w: nat)
    requires w < |s.workers| && WorkerOk(c, s, s.workers[w]) && WorkerStep(c, s, s', w)
    ensures w < |s'.workers|
    ensures QueueCost(c, s'.queue) + WorkerCost(c, s'.workers[w]) < QueueCost(c, s.queue) + WorkerCost(c, s.workers[w])
  {
    hide QueueCost, Insert;
    if f :| Pull(s, s', w, f) {
      QueueCostWithout(c, s.queue, f);
    }
  }

  /** Every step of every worker brings the end nearer. */
  lemma StepCosts(c: Campaign, s: State, s': State)
    requires WorkersOk(c, s) && Next(c, s, s')
    ensures Cost(c, s') < Cost(c, s)
  {
    hide QueueCost, WorkersCost, WorkerCost, WorkerStep;
    var w: nat :| WorkerStep(c, s, s', w);
    StepLeavesOthers(c, s, s', w);
    WorkersCostUpdate(c, s.workers, w, s'.workers[w]);
    assert WorkerOk(c, s, s.workers[w]);
    WorkerStepCosts(c, s, s', w);
  }

  /** No run is longer than the work it starts with; as no state is stuck before all
      workers have stopped, every run can only end with all of them stopped. */
  lemma {:induction false} RunsEnd(c: Campaign, nproc: nat, run: seq<State>, i: nat)
    requires c.Valid() && IsRun(c, nproc, run) && i < |run|
    ensures i + Cost(c, run[i]) <= Cost(c, run[0])
  {
    hide Cost, DbMeaning, LockHeld, WorkersOk, FilesConserved;
    if i > 0 {
      RunsEnd(c, nproc, run, i - 1);
      RunInv(c, nproc, run, i - 1);
      assert Next(c, run[i - 1], run[i]);
      StepCosts(c, run[i - 1], run[i]);
    }
  }
}
