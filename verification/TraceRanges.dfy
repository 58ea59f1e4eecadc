/** Turning a trace into the set of code addresses it is taken to have run through. */
module TraceRanges {
  import opened Common
  import opened Edges
  import opened FastTrace
  import opened RangeSet
  import PathNormal

  /** The functions whose code (inlined or not) is at an address; a line-data lookup. */
  type FrameLookup = nat -> set<string>

  function FrameFuncs(frames: FrameLookup, addr: nat): set<string> {
    if addr == EXIT_IP then {} else frames(addr)
  }

  /** Both addresses lie in one reported function, and in order. */
  predicate SameReportedFunc(frames: FrameLookup, reported: set<string>, a: nat, b: nat) {
    a <= b && FrameFuncs(frames, a) * FrameFuncs(frames, b) * reported != {}
  }

  // ---------------------------------------------------------------------
  // Meaning
  // ---------------------------------------------------------------------

  /** The address is an end of one of the edges. */
  ghost predicate IsEndpoint(es: seq<Edge>, a: nat) {
    exists i :: 0 <= i < |es| && (a == es[i].src || a == es[i].dst)
  }

  /** The address lies between the arrival of one edge and the departure of the
      next, within one reported function. */
  ghost predicate IsPassed(es: seq<Edge>, frames: FrameLookup, reported: set<string>, a: nat) {
    exists i :: 1 <= i < |es| && PassedAt(es, frames, reported, a, i)
  }

  ghost predicate PassedAt(es: seq<Edge>, frames: FrameLookup, reported: set<string>, a: nat, i: nat)
    requires 1 <= i < |es|
  {
    SameReportedFunc(frames, reported, es[i - 1].dst, es[i].src) && es[i - 1].dst <= a <= es[i].src
  }

  /** The ranges are exactly the ends of the edges and what was passed between them. */
  ghost predicate RangesOf(es: seq<Edge>, frames: FrameLookup, reported: set<string>, ranges: seq<Range>) {
    && Canonical(ranges)
    && forall a :: Covers(ranges, a) <==> IsEndpoint(es, a) || IsPassed(es, frames, reported, a)
  }

  lemma EndpointSnoc(es: seq<Edge>, e: Edge, a: nat)
    ensures IsEndpoint(es + [e], a) <==> IsEndpoint(es, a) || a == e.src || a == e.dst
  {
    var es' := es + [e];
    assert es'[|es|] == e;
    if IsEndpoint(es, a) {
      var i :| 0 <= i < |es| && (a == es[i].src || a == es[i].dst);
      assert es'[i] == es[i];
    }
  }

  lemma PassedSnoc(es: seq<Edge>, e: Edge, frames: FrameLookup, reported: set<string>, a: nat)
    ensures IsPassed(es + [e], frames, reported, a) <==>
            || IsPassed(es, frames, reported, a)
            || (es != [] && PassedAt(es + [e], frames, reported, a, |es|))
  {
    var es' := es + [e];
    if IsPassed(es, frames, reported, a) {
      var i :| 1 <= i < |es| && PassedAt(es, frames, reported, a, i);
      assert PassedAt(es', frames, reported, a, i);
    }
    if IsPassed(es', frames, reported, a) {
      var i :| 1 <= i < |es'| && PassedAt(es', frames, reported, a, i);
      if i < |es| {
        assert PassedAt(es, frames, reported, a, i);
      }
    }
  }

  /** The ranges after one more edge. */
  function AddEdge(frames: FrameLookup, reported: set<string>, prev: Option<Edge>, e: Edge, ranges: seq<Range>): seq<Range> {
    var passed :=
      if prev.Some? && SameReportedFunc(frames, reported, prev.value.dst, e.src)
      then Insert(ranges, Range(prev.value.dst, e.src)) else ranges;
    Insert(Insert(passed, Range(e.src, e.src)), Range(e.dst, e.dst))
  }

  lemma AddEdgeMeaning(
    frames: FrameLookup, reported: set<string>, prev: Option<Edge>, e: Edge, ranges: seq<Range>, a: nat)
    requires Canonical(ranges)
    ensures Canonical(AddEdge(frames, reported, prev, e, ranges))
    ensures Covers(AddEdge(frames, reported, prev, e, ranges), a) <==>
            || Covers(ranges, a) || a == e.src || a == e.dst
            || (&& prev.Some? && SameReportedFunc(frames, reported, prev.value.dst, e.src)
                && prev.value.dst <= a <= e.src)
  {
    hide Canonical, Covers, Insert;
    var passed := ranges;
    if prev.Some? && SameReportedFunc(frames, reported, prev.value.dst, e.src) {
      var r := Range(prev.value.dst, e.src);
      InsertCanonical(ranges, r);
      InsertCovers(ranges, r, a);
      passed := Insert(ranges, r);
    }
    var withSrc := Insert(passed, Range(e.src, e.src));
    InsertCanonical(passed, Range(e.src, e.src));
    InsertCovers(passed, Range(e.src, e.src), a);
    InsertCanonical(withSrc, Range(e.dst, e.dst));
    InsertCovers(withSrc, Range(e.dst, e.dst), a);
  }

  lemma RangesStep(es: seq<Edge>, e: Edge, frames: FrameLookup, reported: set<string>, ranges: seq<Range>)
    requires RangesOf(es, frames, reported, ranges)
    ensures RangesOf(es + [e], frames, reported,
              AddEdge(frames, reported, if es == [] then None else Some(es[|es| - 1]), e, ranges))
  {
    hide Canonical, Covers, Insert, AddEdge, IsEndpoint, IsPassed;
    var prev := if es == [] then None else Some(es[|es| - 1]);
    AddEdgeMeaning(frames, reported, prev, e, ranges, 0);
    forall a
      ensures Covers(AddEdge(frames, reported, prev, e, ranges), a) <==>
              IsEndpoint(es + [e], a) || IsPassed(es + [e], frames, reported, a)
    {
      AddEdgeMeaning(frames, reported, prev, e, ranges, a);
      EndpointSnoc(es, e, a);
      PassedSnoc(es, e, frames, reported, a);
    }
  }

  lemma NoRanges(frames: FrameLookup, reported: set<string>)
    ensures RangesOf([], frames, reported, [])
  {
  }

  // ---------------------------------------------------------------------
  // The readers
  // ---------------------------------------------------------------------

  /** What the iterator still yields after it yielded `done`. */
  ghost predicate StillToCome(file: seq<Edge>, done: seq<Edge>, rest: seq<Edge>) {
    && Yielded(file).Ok? == Yielded(rest).Ok?
    && (Yielded(file).Ok? ==> Yielded(file).value == done + Yielded(rest).value)
  }

  lemma NextStillToCome(file: seq<Edge>, done: seq<Edge>, rest: seq<Edge>)
    requires StillToCome(file, done, rest) && rest != [] && ChainHolds(rest)
    ensures StillToCome(file, done + [Collapsed(rest)], rest[Consumed(rest)..])
  {
  }

  lemma NothingToCome(file: seq<Edge>, done: seq<Edge>)
    requires StillToCome(file, done, [])
    ensures Yielded(file) == Ok(done)
  {
    assert done + [] == done;
  }

  /** Collects the addresses of a trace; Failed when the iterator panics. */
  method ReadTraceFile(file: seq<Edge>, nodes: set<nat>) returns (r: Outcome<set<nat>>)
    ensures r.Ok? <==> Yielded(file).Ok?
    ensures r.Ok? ==> forall a :: a in r.value <==> a in nodes || IsEndpoint(Yielded(file).value, a)
  {
    hide Yielded, ChainHolds, IsEndpoint, StillToCome;
    var iter := new TraceFileIter(file);
    var collected := nodes;
    ghost var done: seq<Edge> := [];
    assert StillToCome(file, done, iter.lines) by { StartToCome(file); }
    NoEndpoints();
    while true
      invariant StillToCome(file, done, iter.lines)
      invariant forall a :: a in collected <==> a in nodes || IsEndpoint(done, a)
      decreases |iter.lines|
    {
      ghost var rest := iter.lines;
      var step := iter.Next();
      match step {
        case Item(edge) =>
          NextStillToCome(file, done, rest);
          forall a
            ensures IsEndpoint(done + [edge], a) <==> IsEndpoint(done, a) || a == edge.src || a == edge.dst
          {
            EndpointSnoc(done, edge, a);
          }
          collected := collected + {edge.src, edge.dst};
          done := done + [edge];
        case End =>
          NothingToCome(file, done);
          return Ok(collected);
        case Panic =>
          PanicToCome(file, done, rest);
          return Failed;
      }
    }
  }

  lemma StartToCome(file: seq<Edge>)
    ensures StillToCome(file, [], file)
  {
    if Yielded(file).Ok? {
      assert [] + Yielded(file).value == Yielded(file).value;
    }
  }

  lemma NoEndpoints()
    ensures forall a :: !IsEndpoint([], a)
  {
  }

  lemma PanicToCome(file: seq<Edge>, done: seq<Edge>, rest: seq<Edge>)
    requires StillToCome(file, done, rest) && rest != [] && !ChainHolds(rest)
    ensures Yielded(file).Failed?
  {
  }

  /** Collects the address ranges of a trace; Failed when the iterator panics. */
  method ReadTraceFileGetRanges(
    frames: FrameLookup, file: seq<Edge>, smatchData: map<PathNormal.LineInfo, string>)
    returns (r: Outcome<seq<Range>>)
    ensures r.Ok? <==> Yielded(file).Ok?
    ensures r.Ok? ==> RangesOf(Yielded(file).value, frames, smatchData.Values, r.value)
  {
    hide Yielded, ChainHolds, RangesOf, StillToCome, Insert;
    var iter := new TraceFileIter(file);
    var ranges: seq<Range> := [];
    var smatchFuncs := smatchData.Values;
    var prevEdge: Option<Edge> := None;
    ghost var done: seq<Edge> := [];
    StartToCome(file);
    NoRanges(frames, smatchFuncs);
    while true
      invariant StillToCome(file, done, iter.lines)
      invariant prevEdge == if done == [] then None else Some(done[|done| - 1])
      invariant RangesOf(done, frames, smatchFuncs, ranges)
      decreases |iter.lines|
    {
      ghost var rest := iter.lines;
      var step := iter.Next();
      match step {
        case Item(edge) =>
          NextStillToCome(file, done, rest);
          RangesStep(done, edge, frames, smatchFuncs, ranges);
          if prevEdge.Some? {
            var prevDst := prevEdge.value.dst;
            var shared := FrameFuncs(frames, prevDst) * FrameFuncs(frames, edge.src) * smatchFuncs;
            if prevDst <= edge.src && |shared| > 0 {
              ranges := Insert(ranges, Range(prevDst, edge.src));
            }
          }
          ranges := Insert(ranges, Range(edge.src, edge.src));
          ranges := Insert(ranges, Range(edge.dst, edge.dst));
          prevEdge := Some(edge);
          done := done + [edge];
        case End =>
          NothingToCome(file, done);
          return Ok(ranges);
        case Panic =>
          PanicToCome(file, done, rest);
          return Failed;
      }
    }
  }
}
