/** The back-trace search: which runs it can have, for any order of the
    predecessors, and what its answer means. */
module BackTrace {
  import opened Common
  import opened Edges
  import opened TraceGraph
  import Splice

  /** The edges seen before each edge, and the edges that touch a reported line. */
  datatype BackGraph = BackGraph(back: map<Edge, set<Edge>>, hits: set<Edge>)
  {
    function Priors(e: Edge): set<Edge> {
      Splice.Lookup(back, e)
    }

    ghost predicate WellFormed() {
      SENTINEL !in back && PredecessorsRecorded(back.Keys, back)
    }

    ghost predicate Known(e: Edge) {
      e == SENTINEL || e in back
    }
  }

  // ---------------------------------------------------------------------
  // Runs of the search
  // ---------------------------------------------------------------------

  /** The set, each element once, in some order. */
  ghost predicate IsOrder<T>(order: seq<T>, s: set<T>) {
    && Elements(order) == s
    && forall i, j | 0 <= i < j < |order| :: order[i] != order[j]
  }

  /** A search from `edge`, with `depth` levels to go, can turn the seen set `before`
      into `after` and answer `found`. */
  ghost predicate TraceRun(g: BackGraph, edge: Edge, depth: int, before: set<Edge>, after: set<Edge>, found: bool)
    decreases if depth < 0 then 0 else depth + 1, 0
  {
    if depth < 0 then after == before && found
    else if edge == SENTINEL then after == before && found
    else if edge in before then after == before && !found
    else if edge in g.hits then after == before + {edge} && found
    else exists order ::
      IsOrder(order, g.Priors(edge)) && PriorsRun(g, order, depth, before + {edge}, after, found)
  }

  /** The searches from the predecessors, one after the other: all of them run, and
      one that finds something is enough. */
  ghost predicate PriorsRun(g: BackGraph, order: seq<Edge>, depth: int, before: set<Edge>, after: set<Edge>, found: bool)
    requires depth >= 0
    decreases depth + 1, 0, |order|, 1
  {
    if order == [] then after == before && !found
    else exists mid, f, last :: LastPriorRun(g, order, depth, before, mid, f, last, after) && found == (f || last)
  }

  /** The last of the searches starts from the seen set `mid` that the others leave. */
  ghost predicate LastPriorRun(
    g: BackGraph, order: seq<Edge>, depth: int, before: set<Edge>, mid: set<Edge>, f: bool, last: bool, after: set<Edge>)
    requires depth >= 0 && order != []
    decreases depth + 1, 0, |order|, 0
  {
    var n := |order| - 1;
    PriorsRun(g, order[..n], depth, before, mid, f) && TraceRun(g, order[n], depth - 1, mid, after, last)
  }

  /** A run only marks more edges, and it marks its own unless it is cut off. */
  lemma {:induction false} TraceRunGrows(
    g: BackGraph, edge: Edge, depth: int, before: set<Edge>, after: set<Edge>, found: bool)
    requires TraceRun(g, edge, depth, before, after, found)
    ensures before <= after
    ensures depth >= 0 && edge != SENTINEL ==> edge in after
    decreases if depth < 0 then 0 else depth + 1, 0
  {
    if depth >= 0 && edge != SENTINEL && edge !in before && edge !in g.hits {
      var order :| IsOrder(order, g.Priors(edge)) && PriorsRun(g, order, depth, before + {edge}, after, found);
      PriorsRunGrows(g, order, depth, before + {edge}, after, found);
    }
  }

  lemma {:induction false} PriorsRunGrows(
    g: BackGraph, order: seq<Edge>, depth: int, before: set<Edge>, after: set<Edge>, found: bool)
    requires depth >= 0 && PriorsRun(g, order, depth, before, after, found)
    ensures before <= after
    decreases depth + 1, 0, |order|
  {
    if order != [] {
      var mid, f, last :| LastPriorRun(g, order, depth, before, mid, f, last, after) && found == (f || last);
      PriorsRunGrows(g, order[..|order| - 1], depth, before, mid, f);
      TraceRunGrows(g, order[|order| - 1], depth - 1, mid, after, last);
    }
  }

  lemma PriorsRunSnoc(
    g: BackGraph, order: seq<Edge>, prior: Edge, depth: int,
    before: set<Edge>, mid: set<Edge>, after: set<Edge>, f: bool, last: bool)
    requires depth >= 0 && PriorsRun(g, order, depth, before, mid, f)
    requires TraceRun(g, prior, depth - 1, mid, after, last)
    ensures PriorsRun(g, order + [prior], depth, before, after, f || last)
  {
    assert (order + [prior])[..|order|] == order;
    assert LastPriorRun(g, order + [prior], depth, before, mid, f, last, after);
  }

  lemma NoOrder<T>()
    ensures IsOrder<T>([], {})
  {
  }

  lemma OrderSnoc<T>(order: seq<T>, s: set<T>, x: T)
    requires IsOrder(order, s) && x !in s
    ensures IsOrder(order + [x], s + {x})
  {
    assert forall y :: y in order + [x] <==> y in order || y == x;
    assert forall i | 0 <= i < |order| :: order[i] in Elements(order);
  }

  // ---------------------------------------------------------------------
  // Ways out and dead ends
  // ---------------------------------------------------------------------

  /** A path back from an edge through edges outside `seen`, to the start of a
      trace or to an edge on a reported line. */
  ghost predicate WayOut(g: BackGraph, seen: set<Edge>, p: seq<Edge>) {
    && p != []
    && BackPath(g.back, p)
    && (forall i | 0 <= i < |p| - 1 :: p[i] !in seen)
    && var end := p[|p| - 1];
       end == SENTINEL || (end !in seen && end in g.hits)
  }

  /** A path back from an edge through distinct edges outside `seen` that is
      longer than `depth` steps. */
  ghost predicate DeepPath(g: BackGraph, seen: set<Edge>, depth: int, p: seq<Edge>) {
    && p != []
    && BackPath(g.back, p)
    && |p| - 1 > depth
    && (forall i | 0 <= i < |p| - 1 :: p[i] !in seen && p[i] in g.back)
    && (forall i, j | 0 <= i < j < |p| - 1 :: p[i] != p[j])
  }

  /** The marked edges have all their predecessors marked and no way out among them. */
  ghost predicate Sealed(g: BackGraph, marked: set<Edge>, seen: set<Edge>) {
    forall e | e in marked ::
      e !in g.hits && e in g.back && SENTINEL !in g.back[e] && g.back[e] <= seen
  }

  /** A sealed search region cannot be left. */
  lemma {:induction false} SealedHasNoWayOut(
    g: BackGraph, before: set<Edge>, after: set<Edge>, p: seq<Edge>)
    requires Sealed(g, after - before, after)
    requires p != [] && p[0] in after && SENTINEL !in after
    ensures !WayOut(g, before, p)
    decreases |p|
  {
    if WayOut(g, before, p) {
      if |p| == 1 {
        assert false;
      } else {
        assert p[0] in after - before;
        assert p[1] in g.Priors(p[0]);
        var q := p[1..];
        assert forall i | 0 <= i < |q| - 1 :: q[i] == p[i + 1] && q[i + 1] in g.Priors(q[i]) by {
          forall i | 0 <= i < |q| - 1
            ensures q[i] == p[i + 1] && q[i + 1] in g.Priors(q[i])
          {
            assert p[i + 2] in g.Priors(p[i + 1]);
          }
        }
        SealedHasNoWayOut(g, before, after, q);
      }
    }
  }

  lemma WayOutCons(g: BackGraph, seen: set<Edge>, seen': set<Edge>, e: Edge, p: seq<Edge>)
    requires WayOut(g, seen', p) && seen <= seen'
    requires e !in seen && p[0] in g.Priors(e)
    ensures WayOut(g, seen, [e] + p)
  {
    BackPathCons(g.back, e, p[|p| - 1], p);
  }

  lemma DeepPathCons(g: BackGraph, seen: set<Edge>, seen': set<Edge>, depth: int, e: Edge, p: seq<Edge>)
    requires DeepPath(g, seen', depth - 1, p) && seen + {e} <= seen'
    requires e !in seen && e in g.back && p[0] in g.back[e]
    ensures DeepPath(g, seen, depth, [e] + p)
  {
    BackPathCons(g.back, e, p[|p| - 1], p);
    var q := [e] + p;
    forall i, j | 0 <= i < j < |q| - 1
      ensures q[i] != q[j]
    {
      if i == 0 {
        assert p[j - 1] !in seen';
      } else {
        assert p[i - 1] != p[j - 1];
      }
    }
  }

  /** With more depth than unseen edges there is no deep path. */
  lemma NoDeepPath(g: BackGraph, seen: set<Edge>, depth: int, p: seq<Edge>)
    requires depth >= |g.back.Keys - seen|
    ensures !DeepPath(g, seen, depth, p)
  {
    if DeepPath(g, seen, depth, p) {
      var q := p[..|p| - 1];
      DistinctCount(q);
      SubsetCount(Elements(q), g.back.Keys - seen);
      assert false;
    }
  }

  /** From a recorded edge there is always a way out of an empty search. */
  lemma StartIsWayOut(g: BackGraph, e: Edge) returns (p: seq<Edge>)
    requires HasStart(g.back, e)
    ensures WayOut(g, {}, p) && p[0] == e
  {
    p :| FromTo(g.back, e, SENTINEL, p);
  }

  // ---------------------------------------------------------------------
  // Verdicts
  // ---------------------------------------------------------------------

  ghost predicate EscapesFrom(g: BackGraph, seen: set<Edge>, e: Edge) {
    exists p :: WayOut(g, seen, p) && p[0] == e
  }

  ghost predicate TooDeepFrom(g: BackGraph, seen: set<Edge>, depth: int, e: Edge) {
    exists p :: DeepPath(g, seen, depth, p) && p[0] == e
  }

  /** What a search from `edge` that turned the set `before` into `after` shows. */
  ghost predicate SearchOutcome(
    g: BackGraph, before: set<Edge>, after: set<Edge>,
    edge: Edge, depth: int, found: bool)
  {
    && before <= after <= g.back.Keys
    && (!found ==> edge in after && Sealed(g, after - before, after))
    && (found ==> EscapesFrom(g, before, edge) || TooDeepFrom(g, before, depth, edge))
  }

  /** When the depth limit cannot bite, the answer is exact: true iff the edge has
      a way out that avoids everything seen before. */
  lemma SearchIsExact(
    g: BackGraph, before: set<Edge>, after: set<Edge>,
    edge: Edge, depth: int, found: bool)
    requires SENTINEL !in g.back
    requires SearchOutcome(g, before, after, edge, depth, found)
    ensures depth >= |g.back.Keys - before| ==> (found <==> EscapesFrom(g, before, edge))
    ensures !found ==> !EscapesFrom(g, before, edge)
  {
    if !found {
      forall p | p != [] && p[0] == edge
        ensures !WayOut(g, before, p)
      {
        SealedHasNoWayOut(g, before, after, p);
      }
    } else if depth >= |g.back.Keys - before| {
      forall p
        ensures !DeepPath(g, before, depth, p)
      {
        NoDeepPath(g, before, depth, p);
      }
    }
  }

  // ---------------------------------------------------------------------
  // Every run has such an outcome
  // ---------------------------------------------------------------------

  lemma DepthCut(g: BackGraph, seen: set<Edge>, edge: Edge, depth: int)
    requires seen <= g.back.Keys && depth < 0
    ensures SearchOutcome(g, seen, seen, edge, depth, true)
  {
    assert DeepPath(g, seen, depth, [edge]);
  }

  lemma EndFound(
    g: BackGraph, before: set<Edge>, after: set<Edge>, edge: Edge, depth: int)
    requires before <= after <= g.back.Keys
    requires edge == SENTINEL || (edge in g.hits && edge !in before)
    ensures SearchOutcome(g, before, after, edge, depth, true)
  {
    assert WayOut(g, before, [edge]);
  }

  lemma NothingNew(g: BackGraph, seen: set<Edge>, edge: Edge, depth: int)
    requires edge in seen && seen <= g.back.Keys
    ensures SearchOutcome(g, seen, seen, edge, depth, false)
  {
  }

  /** What the loop over the predecessors `done` of an edge has shown so far. */
  ghost predicate PriorsSearched(
    g: BackGraph, before: set<Edge>, after: set<Edge>,
    edge: Edge, done: set<Edge>, depth: int, found: bool)
  {
    && (!found ==> done <= after && Sealed(g, after - before - {edge}, after))
    && (found ==> EscapesFrom(g, before, edge) || TooDeepFrom(g, before, depth, edge))
  }

  lemma NoPriorYet(g: BackGraph, before: set<Edge>, edge: Edge, depth: int)
    ensures PriorsSearched(g, before, before + {edge}, edge, {}, depth, false)
  {
  }

  lemma PriorStep(
    g: BackGraph, before: set<Edge>, mid: set<Edge>, after: set<Edge>,
    edge: Edge, done: set<Edge>, prior: Edge, depth: int, found: bool, priorFound: bool)
    requires edge in g.back && edge !in before && prior in g.back[edge]
    requires before + {edge} <= mid
    requires PriorsSearched(g, before, mid, edge, done, depth, found)
    requires SearchOutcome(g, mid, after, prior, depth - 1, priorFound)
    ensures PriorsSearched(g, before, after, edge, done + {prior}, depth, found || priorFound)
  {
    if priorFound {
      if EscapesFrom(g, mid, prior) {
        var p :| WayOut(g, mid, p) && p[0] == prior;
        WayOutCons(g, before, mid, edge, p);
      } else {
        var p :| DeepPath(g, mid, depth - 1, p) && p[0] == prior;
        DeepPathCons(g, before, mid, depth, edge, p);
      }
    }
  }

  lemma AllPriorsSearched(
    g: BackGraph, before: set<Edge>, after: set<Edge>,
    edge: Edge, depth: int, found: bool)
    requires edge in g.back && edge !in g.hits && SENTINEL !in g.back
    requires before + {edge} <= after <= g.back.Keys
    requires PriorsSearched(g, before, after, edge, g.back[edge], depth, found)
    ensures SearchOutcome(g, before, after, edge, depth, found)
  {
  }

  lemma {:induction false} TraceRunOutcome(
    g: BackGraph, edge: Edge, depth: int, before: set<Edge>, after: set<Edge>, found: bool)
    requires g.WellFormed() && g.Known(edge) && before <= g.back.Keys
    requires TraceRun(g, edge, depth, before, after, found)
    ensures SearchOutcome(g, before, after, edge, depth, found)
    decreases if depth < 0 then 0 else depth + 1, 0
  {
    hide SearchOutcome, PriorsSearched;
    if depth < 0 {
      DepthCut(g, before, edge, depth);
    } else if edge == SENTINEL {
      EndFound(g, before, after, edge, depth);
    } else if edge in before {
      NothingNew(g, before, edge, depth);
    } else if edge in g.hits {
      EndFound(g, before, after, edge, depth);
    } else {
      var order :| IsOrder(order, g.Priors(edge)) && PriorsRun(g, order, depth, before + {edge}, after, found);
      PriorsRunOutcome(g, edge, order, depth, before, after, found);
      AllPriorsSearched(g, before, after, edge, depth, found);
    }
  }

  lemma {:induction false} PriorsRunOutcome(
    g: BackGraph, edge: Edge, order: seq<Edge>, depth: int, before: set<Edge>, after: set<Edge>, found: bool)
    requires g.WellFormed() && edge in g.back && edge !in before && before <= g.back.Keys && depth >= 0
    requires Elements(order) <= g.back[edge] && PriorsRun(g, order, depth, before + {edge}, after, found)
    ensures before + {edge} <= after <= g.back.Keys
    ensures PriorsSearched(g, before, after, edge, Elements(order), depth, found)
    decreases depth + 1, 0, |order|
  {
    hide SearchOutcome, PriorsSearched, TraceRun;
    if order == [] {
      NoPriorYet(g, before, edge, depth);
      assert Elements(order) == {};
    } else {
      var n := |order| - 1;
      var mid, f, last :|
        LastPriorRun(g, order, depth, before + {edge}, mid, f, last, after) && found == (f || last);
      assert Elements(order) == Elements(order[..n]) + {order[n]};
      PriorsRunOutcome(g, edge, order[..n], depth, before, mid, f);
      TraceRunOutcome(g, order[n], depth - 1, mid, after, last);
      OutcomeGrows(g, mid, after, order[n], depth - 1, last);
      PriorStep(g, before, mid, after, edge, Elements(order[..n]), order[n], depth, f, last);
    }
  }

  lemma OutcomeGrows(g: BackGraph, before: set<Edge>, after: set<Edge>, edge: Edge, depth: int, found: bool)
    requires SearchOutcome(g, before, after, edge, depth, found)
    ensures before <= after <= g.back.Keys
  {
  }

  // ---------------------------------------------------------------------
  // The main results
  // ---------------------------------------------------------------------

  /** A search that answers no has sealed off everything it reached. When depth
      cannot run out, the answer is yes exactly when the edge has a way out. */
  lemma TraceRunIsExact(
    g: BackGraph, edge: Edge, depth: int, before: set<Edge>, after: set<Edge>, found: bool)
    requires g.WellFormed() && g.Known(edge) && before <= g.back.Keys
    requires TraceRun(g, edge, depth, before, after, found)
    ensures !found ==> !EscapesFrom(g, before, edge)
    ensures depth >= |g.back.Keys - before| ==> (found <==> EscapesFrom(g, before, edge))
  {
    TraceRunOutcome(g, edge, depth, before, after, found);
    SearchIsExact(g, before, after, edge, depth, found);
  }

  /** A search that starts afresh on a recorded edge never comes back empty, at any depth. */
  lemma FreshSearchNeverDeadEnds(
    recorded: set<Edge>, callers: map<nat, set<nat>>, g: BackGraph, edge: Edge, depth: int, after: set<Edge>, found: bool)
    requires GraphOk(recorded, callers, g.back)
    requires edge in recorded && TraceRun(g, edge, depth, {}, after, found)
    ensures found
  {
    TraceRunIsExact(g, edge, depth, {}, after, found);
    var p := StartIsWayOut(g, edge);
  }

  // ---------------------------------------------------------------------
  // What searches mark
  // ---------------------------------------------------------------------

  /** A path back through edges not seen before, of at most `depth` steps, that goes
      on only from edges on no reported line. */
  ghost predicate SearchPath(g: BackGraph, seen: set<Edge>, depth: int, p: seq<Edge>) {
    && p != []
    && BackPath(g.back, p)
    && |p| - 1 <= depth
    && (forall i | 0 <= i < |p| :: p[i] !in seen && p[i] != SENTINEL)
    && (forall i | 0 <= i < |p| - 1 :: p[i] !in g.hits)
  }

  ghost predicate ReachedFrom(g: BackGraph, seen: set<Edge>, depth: int, starts: set<Edge>, e: Edge) {
    exists p :: SearchPath(g, seen, depth, p) && p[0] in starts && p[|p| - 1] == e
  }

  /** Marked edges on no reported line have all their predecessors marked. */
  ghost predicate Explored(g: BackGraph, marked: set<Edge>, seen: set<Edge>) {
    forall e, prior | e in marked && e !in g.hits && prior in g.Priors(e) :: prior == SENTINEL || prior in seen
  }

  lemma ReachedStart(g: BackGraph, seen: set<Edge>, depth: int, e: Edge)
    requires depth >= 0 && e !in seen && e != SENTINEL
    ensures ReachedFrom(g, seen, depth, {e}, e)
  {
    assert SearchPath(g, seen, depth, [e]);
  }

  lemma ReachedMore(
    g: BackGraph, seen: set<Edge>, seen': set<Edge>, depth: int, starts: set<Edge>, starts': set<Edge>, e: Edge)
    requires ReachedFrom(g, seen', depth, starts, e) && seen <= seen' && starts <= starts'
    ensures ReachedFrom(g, seen, depth, starts', e)
  {
    var p :| SearchPath(g, seen', depth, p) && p[0] in starts && p[|p| - 1] == e;
    assert SearchPath(g, seen, depth, p);
  }

  lemma ReachedCons(g: BackGraph, seen: set<Edge>, depth: int, priors: set<Edge>, start: Edge, e: Edge)
    requires ReachedFrom(g, seen + {start}, depth - 1, priors, e) && priors <= g.Priors(start)
    requires start !in seen && start != SENTINEL && start !in g.hits
    ensures ReachedFrom(g, seen, depth, {start}, e)
  {
    var p :| SearchPath(g, seen + {start}, depth - 1, p) && p[0] in priors && p[|p| - 1] == e;
    var q := [start] + p;
    BackPathCons(g.back, start, e, p);
    assert forall i | 0 < i < |q| :: q[i] == p[i - 1];
    assert SearchPath(g, seen, depth, q);
  }

  /** A run marks only edges that it reaches within its depth, off what was seen. */
  lemma {:induction false} TraceRunMarksReached(
    g: BackGraph, edge: Edge, depth: int, before: set<Edge>, after: set<Edge>, found: bool, e: Edge)
    requires TraceRun(g, edge, depth, before, after, found) && e in after - before
    ensures ReachedFrom(g, before, depth, {edge}, e)
    decreases if depth < 0 then 0 else depth + 1, 0
  {
    hide ReachedFrom;
    if e == edge {
      ReachedStart(g, before, depth, e);
    } else {
      var order :| IsOrder(order, g.Priors(edge)) && PriorsRun(g, order, depth, before + {edge}, after, found);
      PriorsRunMarksReached(g, order, depth, before + {edge}, after, found, e);
      ReachedCons(g, before, depth, Elements(order), edge, e);
    }
  }

  lemma {:induction false} PriorsRunMarksReached(
    g: BackGraph, order: seq<Edge>, depth: int, before: set<Edge>, after: set<Edge>, found: bool, e: Edge)
    requires depth >= 0 && PriorsRun(g, order, depth, before, after, found) && e in after - before
    ensures ReachedFrom(g, before, depth - 1, Elements(order), e)
    decreases depth + 1, 0, |order|
  {
    hide ReachedFrom, TraceRun;
    var n := |order| - 1;
    var mid, f, last :| LastPriorRun(g, order, depth, before, mid, f, last, after) && found == (f || last);
    PriorsRunGrows(g, order[..n], depth, before, mid, f);
    if e in mid {
      PriorsRunMarksReached(g, order[..n], depth, before, mid, f, e);
      ReachedMore(g, before, before, depth - 1, Elements(order[..n]), Elements(order), e);
    } else {
      TraceRunMarksReached(g, order[n], depth - 1, mid, after, last, e);
      ReachedMore(g, before, mid, depth - 1, {order[n]}, Elements(order), e);
    }
  }

  /** With depth to spare a run leaves nothing out. */
  lemma {:induction false} TraceRunExplores(
    g: BackGraph, edge: Edge, depth: int, before: set<Edge>, after: set<Edge>, found: bool)
    requires g.WellFormed() && g.Known(edge) && depth >= 0 && DepthToSpare(g, depth, before)
    requires TraceRun(g, edge, depth, before, after, found)
    ensures Explored(g, after - before, after)
    decreases depth + 1, 0
  {
    hide Explored, AllIn, DepthToSpare;
    if edge == SENTINEL || edge in before || edge in g.hits {
      NewlyExplored(g, edge, before, after);
    } else {
      var order :| IsOrder(order, g.Priors(edge)) && PriorsRun(g, order, depth, before + {edge}, after, found);
      DepthOneDown(g, depth, before, edge);
      assert forall i | 0 <= i < |order| :: order[i] in Elements(order);
      PriorsRunExplores(g, order, depth, before + {edge}, after, found);
      PriorsRunGrows(g, order, depth, before + {edge}, after, found);
      AllPriorsIn(order, g.Priors(edge), after);
      StartExplored(g, edge, before, after);
    }
  }

  lemma NewlyExplored(g: BackGraph, edge: Edge, before: set<Edge>, after: set<Edge>)
    requires after <= before || (edge in g.hits && after == before + {edge})
    ensures Explored(g, after - before, after)
  {
  }

  lemma AllPriorsIn(order: seq<Edge>, priors: set<Edge>, seen: set<Edge>)
    requires IsOrder(order, priors) && AllIn(order, seen)
    ensures forall prior | prior in priors :: prior == SENTINEL || prior in seen
  {
    forall prior | prior in priors
      ensures prior == SENTINEL || prior in seen
    {
      assert prior in Elements(order);
      var i :| 0 <= i < |order| && order[i] == prior;
    }
  }

  lemma StartExplored(g: BackGraph, edge: Edge, before: set<Edge>, after: set<Edge>)
    requires Explored(g, after - (before + {edge}), after)
    requires forall prior | prior in g.Priors(edge) :: prior == SENTINEL || prior in after
    ensures Explored(g, after - before, after)
  {
  }

  lemma ExploredTogether(g: BackGraph, before: set<Edge>, mid: set<Edge>, after: set<Edge>)
    requires mid <= after && Explored(g, mid - before, mid) && Explored(g, after - mid, after)
    ensures Explored(g, after - before, after)
  {
  }

  /** There are no more unseen edges than levels to go. */
  ghost predicate DepthToSpare(g: BackGraph, depth: int, seen: set<Edge>) {
    depth >= |g.back.Keys - seen|
  }

  lemma DepthStaysEnough(g: BackGraph, depth: int, before: set<Edge>, mid: set<Edge>)
    requires DepthToSpare(g, depth, before) && before <= mid
    ensures DepthToSpare(g, depth, mid)
  {
    SubsetCount(g.back.Keys - mid, g.back.Keys - before);
  }

  lemma DepthOneDown(g: BackGraph, depth: int, before: set<Edge>, edge: Edge)
    requires DepthToSpare(g, depth, before) && edge in g.back && edge !in before
    ensures depth >= 1 && DepthToSpare(g, depth - 1, before + {edge})
  {
    assert g.back.Keys - before == (g.back.Keys - (before + {edge})) + {edge};
  }

  lemma NoPriorsRun(g: BackGraph, depth: int, before: set<Edge>, after: set<Edge>, found: bool)
    requires depth >= 0 && PriorsRun(g, [], depth, before, after, found)
    ensures after == before && !found
  {
  }

  lemma LastPrior(g: BackGraph, order: seq<Edge>, depth: int, before: set<Edge>, after: set<Edge>, found: bool)
    returns (mid: set<Edge>, f: bool, last: bool)
    requires depth >= 0 && order != [] && PriorsRun(g, order, depth, before, after, found)
    ensures PriorsRun(g, order[..|order| - 1], depth, before, mid, f)
    ensures TraceRun(g, order[|order| - 1], depth - 1, mid, after, last)
    ensures found == (f || last)
  {
    hide TraceRun;
    mid, f, last :| LastPriorRun(g, order, depth, before, mid, f, last, after) && found == (f || last);
  }

  /** The edges are all in the set, the sentinel aside. */
  ghost predicate AllIn(order: seq<Edge>, seen: set<Edge>) {
    forall i | 0 <= i < |order| :: order[i] == SENTINEL || order[i] in seen
  }

  lemma AllInSnoc(order: seq<Edge>, mid: set<Edge>, after: set<Edge>)
    requires order != [] && AllIn(order[..|order| - 1], mid) && mid <= after
    requires order[|order| - 1] == SENTINEL || order[|order| - 1] in after
    ensures AllIn(order, after)
  {
    forall i | 0 <= i < |order| - 1
      ensures order[i] == SENTINEL || order[i] in after
    {
      assert order[..|order| - 1][i] == order[i];
    }
  }

  lemma {:induction false} PriorsRunExplores(
    g: BackGraph, order: seq<Edge>, depth: int, before: set<Edge>, after: set<Edge>, found: bool)
    requires g.WellFormed() && depth >= 1 && DepthToSpare(g, depth - 1, before)
    requires forall i | 0 <= i < |order| :: g.Known(order[i])
    requires PriorsRun(g, order, depth, before, after, found)
    ensures Explored(g, after - before, after) && AllIn(order, after)
    decreases depth + 1, 0, |order|
  {
    hide Explored, AllIn, DepthToSpare, TraceRun, PriorsRun, BackGraph.WellFormed, BackGraph.Known;
    if order == [] {
      NoPriorsRun(g, depth, before, after, found);
      NewlyExplored(g, SENTINEL, before, after);
      NoneMissing(after);
    } else {
      var n := |order| - 1;
      var mid, f, last := LastPrior(g, order, depth, before, after, found);
      PriorsRunExplores(g, order[..n], depth, before, mid, f);
      PriorsRunGrows(g, order[..n], depth, before, mid, f);
      DepthStaysEnough(g, depth - 1, before, mid);
      TraceRunExplores(g, order[n], depth - 1, mid, after, last);
      TraceRunGrows(g, order[n], depth - 1, mid, after, last);
      ExploredTogether(g, before, mid, after);
      AllInSnoc(order, mid, after);
    }
  }

  lemma NoneMissing(seen: set<Edge>)
    ensures AllIn([], seen)
  {
  }

  /** What searches from some edges, one after the other, leave in the seen set. */
  ghost predicate SearchedFrom(g: BackGraph, starts: set<Edge>, depth: int, before: set<Edge>, after: set<Edge>) {
    && before <= after
    && (depth >= 0 ==> starts <= after)
    && (forall e | e in after - before :: ReachedFrom(g, before, depth, starts, e))
    && (DepthToSpare(g, depth, before) ==> Explored(g, after - before, after))
  }

  /** One search from each edge of the set, `depth` - 1 levels deep, in some order. */
  ghost predicate SearchedInOrder(g: BackGraph, starts: set<Edge>, depth: nat, before: set<Edge>, after: set<Edge>) {
    exists order, found :: IsOrder(order, starts) && PriorsRun(g, order, depth, before, after, found)
  }

  lemma NoSearches(g: BackGraph, depth: nat, seen: set<Edge>)
    ensures PriorsRun(g, [], depth, seen, seen, false)
  {
  }

  /** A search with no level to go does nothing, however many are missing. */
  lemma CutAlike(g: BackGraph, edge: Edge, depth: int, depth': int, before: set<Edge>, after: set<Edge>, found: bool)
    requires TraceRun(g, edge, depth, before, after, found) && (depth == depth' || (depth < 0 && depth' < 0))
    ensures TraceRun(g, edge, depth', before, after, found)
  {
  }

  lemma {:induction false} PriorsRunMarksStarts(
    g: BackGraph, order: seq<Edge>, depth: int, before: set<Edge>, after: set<Edge>, found: bool)
    requires depth >= 1 && PriorsRun(g, order, depth, before, after, found)
    ensures AllIn(order, after)
    decreases |order|
  {
    hide AllIn, PriorsRun, TraceRun;
    if order == [] {
      NoneMissing(after);
    } else {
      var n := |order| - 1;
      var mid, f, last := LastPrior(g, order, depth, before, after, found);
      PriorsRunMarksStarts(g, order[..n], depth, before, mid, f);
      TraceRunGrows(g, order[n], depth - 1, mid, after, last);
      AllInSnoc(order, mid, after);
    }
  }

  /** What any searches from some recorded edges, one after the other, have marked. */
  lemma SearchesMark(
    g: BackGraph, order: seq<Edge>, starts: set<Edge>, depth: int, before: set<Edge>, after: set<Edge>, found: bool)
    requires g.WellFormed() && IsOrder(order, starts) && starts <= g.back.Keys && depth >= 0
    requires PriorsRun(g, order, depth, before, after, found)
    ensures SearchedFrom(g, starts, depth - 1, before, after)
  {
    hide ReachedFrom, Explored, PriorsRun, AllIn, DepthToSpare;
    PriorsRunGrows(g, order, depth, before, after, found);
    if depth >= 1 {
      PriorsRunMarksStarts(g, order, depth, before, after, found);
      AllPriorsIn(order, starts, after);
    }
    forall e | e in after - before
      ensures ReachedFrom(g, before, depth - 1, starts, e)
    {
      PriorsRunMarksReached(g, order, depth, before, after, found, e);
    }
    if DepthToSpare(g, depth - 1, before) {
      NoDepthToSpare(g, depth - 1, before);
      assert forall i | 0 <= i < |order| :: order[i] in Elements(order);
      PriorsRunExplores(g, order, depth, before, after, found);
    }
  }

  lemma NoDepthToSpare(g: BackGraph, depth: int, seen: set<Edge>)
    requires DepthToSpare(g, depth, seen)
    ensures depth >= 0
  {
  }

  lemma {:induction false} PathStaysMarked(g: BackGraph, before: set<Edge>, after: set<Edge>, depth: int, p: seq<Edge>, i: nat)
    requires Explored(g, after - before, after)
    requires SearchPath(g, before, depth, p) && p[0] in after && i < |p|
    ensures p[i] in after - before
  {
    if i > 0 {
      PathStaysMarked(g, before, after, depth, p, i - 1);
      assert p[i - 1 + 1] in g.Priors(p[i - 1]);
    }
  }

  /** With depth to spare the newly marked edges are exactly those that a path of
      unseen edges, on no reported line but for its end, leads back to. */
  lemma SearchedIsExact(g: BackGraph, starts: set<Edge>, depth: int, before: set<Edge>, after: set<Edge>, e: Edge)
    requires SearchedFrom(g, starts, depth, before, after) && DepthToSpare(g, depth, before)
    ensures e in after - before <==> ReachedFrom(g, before, depth, starts, e)
  {
    hide Explored;
    if ReachedFrom(g, before, depth, starts, e) {
      var p :| SearchPath(g, before, depth, p) && p[0] in starts && p[|p| - 1] == e;
      PathStaysMarked(g, before, after, depth, p, |p| - 1);
    }
  }
}
