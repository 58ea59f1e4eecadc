/** The end-to-end meaning of the fast matcher's coverage set. */
module CampaignCoverage {
  import opened Edges
  import opened FastTrace
  import opened RangeSet
  import opened TraceRanges
  import opened ParallelMerge

  /** Each file holds a trace, and reading it has the outcome of the range reader. */
  ghost predicate ReadsTraces(c: Campaign, trace: File -> seq<Edge>, frames: FrameLookup, reported: set<string>) {
    forall f | f in c.files ::
      && (c.outcome(f).Ok? <==> Yielded(trace(f)).Ok?)
      && (c.outcome(f).Ok? ==> RangesOf(Yielded(trace(f)).value, frames, reported, c.outcome(f).value))
  }

  /** The iterator survives the trace, and the address is an end of one of its
      edges or was passed between two. */
  ghost predicate RanThrough(trace: seq<Edge>, frames: FrameLookup, reported: set<string>, a: nat) {
    && Yielded(trace).Ok?
    && (IsEndpoint(Yielded(trace).value, a) || IsPassed(Yielded(trace).value, frames, reported, a))
  }

  ghost predicate SomeRanThrough(
    c: Campaign, trace: File -> seq<Edge>, frames: FrameLookup, reported: set<string>, a: nat)
  {
    exists f :: f in c.files && RanThrough(trace(f), frames, reported, a)
  }

  lemma FileMeaning(
    c: Campaign, trace: File -> seq<Edge>, frames: FrameLookup, reported: set<string>, f: File, a: nat)
    requires ReadsTraces(c, trace, frames, reported) && f in c.files
    ensures Covers(c.Ranges(f), a) <==> RanThrough(trace(f), frames, reported, a)
  {
    hide Yielded, IsEndpoint, IsPassed, Canonical;
    NothingCovered(a);
  }

  lemma ReadTracesAreOrdered(c: Campaign, trace: File -> seq<Edge>, frames: FrameLookup, reported: set<string>)
    requires ReadsTraces(c, trace, frames, reported)
    ensures c.Valid()
  {
    hide Yielded, IsEndpoint, IsPassed, Covers;
    forall f | f in c.files && c.outcome(f).Ok?
      ensures Ordered(c.outcome(f).value)
    {
      assert RangesOf(Yielded(trace(f)).value, frames, reported, c.outcome(f).value);
    }
  }

  /** Once the workers have stopped with the queue drained, the shared set holds
      exactly the addresses that some readable trace ran through. */
  lemma CoverageIsExact(
    c: Campaign, trace: File -> seq<Edge>, frames: FrameLookup, reported: set<string>,
    nproc: nat, run: seq<State>, order: seq<File>)
    requires ReadsTraces(c, trace, frames, reported)
    requires IsRun(c, nproc, run) && AllStopped(run[|run| - 1]) && run[|run| - 1].queue == multiset{}
    requires multiset(order) == c.files
    ensures Canonical(run[|run| - 1].db)
    ensures forall a :: Covers(run[|run| - 1].db, a) <==> SomeRanThrough(c, trace, frames, reported, a)
  {
    hide Covers, RanThrough, Canonical, ReadsTraces;
    ReadTracesAreOrdered(c, trace, frames, reported);
    MergeIsSchedulingIndependent(c, nproc, run, order);
    SequentialMeaning(c, order);
    forall a
      ensures Covers(run[|run| - 1].db, a) <==> SomeRanThrough(c, trace, frames, reported, a)
    {
      forall f | f in c.files
        ensures Covers(c.Ranges(f), a) <==> RanThrough(trace(f), frames, reported, a)
      {
        FileMeaning(c, trace, frames, reported, f, a);
      }
    }
  }
}
