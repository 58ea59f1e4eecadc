/** The graph behind the trace searches: what merged traces guarantee about the
    recorded edges, and the paths the two searches follow. */
module TraceGraph {
  import opened Edges
  import Splice

  // ---------------------------------------------------------------------
  // Merged indexes
  // ---------------------------------------------------------------------

  /** The union of two set-valued dictionaries, key by key. */
  function MergeSets<K, V>(a: map<K, set<V>>, b: map<K, set<V>>): (m: map<K, set<V>>)
    ensures m.Keys == a.Keys + b.Keys
    ensures forall k | k in m :: m[k] == Splice.Lookup(a, k) + Splice.Lookup(b, k)
  {
    map k | k in a.Keys + b.Keys :: Splice.Lookup(a, k) + Splice.Lookup(b, k)
  }

  /** A path back in time: each edge was seen right before the one it follows. */
  ghost predicate BackPath(back: map<Edge, set<Edge>>, p: seq<Edge>) {
    forall i | 0 <= i < |p| - 1 :: p[i + 1] in Splice.Lookup(back, p[i])
  }

  ghost predicate FromTo(back: map<Edge, set<Edge>>, e: Edge, f: Edge, p: seq<Edge>) {
    p != [] && p[0] == e && p[|p| - 1] == f && BackPath(back, p)
  }

  /** The edge has a chain of predecessors back to the start of a trace. */
  ghost predicate HasStart(back: map<Edge, set<Edge>>, e: Edge) {
    exists p :: FromTo(back, e, SENTINEL, p)
  }

  ghost predicate PredecessorsRecorded(recorded: set<Edge>, back: map<Edge, set<Edge>>) {
    forall e, p | e in back && p in back[e] :: p == SENTINEL || p in recorded
  }

  ghost predicate CallersInverse(recorded: set<Edge>, callers: map<nat, set<nat>>) {
    forall src, dst :: src in Splice.Lookup(callers, dst) <==> Edge(src, dst) in recorded
  }

  /** The facts the searches rely on. */
  ghost predicate GraphOk(recorded: set<Edge>, callers: map<nat, set<nat>>, back: map<Edge, set<Edge>>) {
    && SENTINEL !in recorded
    && back.Keys == recorded
    && PredecessorsRecorded(recorded, back)
    && (forall e | e in recorded :: HasStart(back, e))
    && CallersInverse(recorded, callers)
  }

  /** Prepends an edge to a path. */
  lemma BackPathCons(back: map<Edge, set<Edge>>, e: Edge, f: Edge, p: seq<Edge>)
    requires p != [] && BackPath(back, p) && p[0] in Splice.Lookup(back, e)
    requires f == p[|p| - 1]
    ensures FromTo(back, e, f, [e] + p)
  {
    var q := [e] + p;
    forall i | 0 <= i < |q| - 1
      ensures q[i + 1] in Splice.Lookup(back, q[i])
    {
      if i > 0 {
        assert p[i] in Splice.Lookup(back, p[i - 1]);
      }
    }
  }

  /** In the index of one stream every edge leads back to the sentinel. */
  lemma {:induction false} StreamHasStart(s: seq<Splice.Line>, back: map<Edge, set<Edge>>, i: nat)
    requires Splice.BackEdgesAgree(s, back) && i < |s|
    ensures HasStart(back, s[i].edge)
  {
    var e := s[i].edge;
    assert s[i] in s;
    assert Splice.PriorEdge(s, i) in back[e];
    if i == 0 {
      BackPathCons(back, e, SENTINEL, [SENTINEL]);
    } else {
      StreamHasStart(s, back, i - 1);
      var p :| FromTo(back, s[i - 1].edge, SENTINEL, p);
      BackPathCons(back, e, SENTINEL, p);
    }
  }

  /** Every spliced trace yields a sound graph. */
  lemma FindingsAreSound(t: seq<Splice.Line>, f: Splice.Findings)
    requires Splice.WellSpliced(t) && Splice.IndexesAgree(Splice.Emitted(t), f)
    ensures GraphOk(f.edges.Keys, f.callers, f.backEdges)
  {
    var s := Splice.Emitted(t);
    Splice.SentinelNeverRecorded(t, f);
    forall e | e in f.edges
      ensures HasStart(f.backEdges, e)
    {
      var l :| l in s && l.edge == e;
      var i :| 0 <= i < |s| && s[i] == l;
      StreamHasStart(s, f.backEdges, i);
    }
    forall e, p | e in f.backEdges && p in f.backEdges[e]
      ensures p == SENTINEL || p in f.edges
    {
      var i :| 0 <= i < |s| && s[i].edge == e && p == Splice.PriorEdge(s, i);
      if i > 0 {
        assert s[i - 1] in s;
      }
    }
    forall src, dst
      ensures src in Splice.Lookup(f.callers, dst) <==> Edge(src, dst) in f.edges.Keys
    {
      Splice.CallersInvertEdges(s, f, src, dst);
    }
  }

  /** Paths survive when an index grows. */
  lemma HasStartGrows(back: map<Edge, set<Edge>>, back': map<Edge, set<Edge>>, e: Edge)
    requires HasStart(back, e)
    requires forall k :: Splice.Lookup(back, k) <= Splice.Lookup(back', k)
    ensures HasStart(back', e)
  {
    var p :| FromTo(back, e, SENTINEL, p);
    assert FromTo(back', e, SENTINEL, p);
  }

  lemma MergedStarts(b1: map<Edge, set<Edge>>, b2: map<Edge, set<Edge>>, e: Edge)
    requires HasStart(b1, e) || HasStart(b2, e)
    ensures HasStart(MergeSets(b1, b2), e)
  {
    var b := MergeSets(b1, b2);
    if HasStart(b1, e) {
      HasStartGrows(b1, b, e);
    } else {
      HasStartGrows(b2, b, e);
    }
  }

  lemma MergedCallers(r1: set<Edge>, c1: map<nat, set<nat>>, r2: set<Edge>, c2: map<nat, set<nat>>)
    requires CallersInverse(r1, c1) && CallersInverse(r2, c2)
    ensures CallersInverse(r1 + r2, MergeSets(c1, c2))
  {
    var c := MergeSets(c1, c2);
    forall src, dst
      ensures src in Splice.Lookup(c, dst) <==> Edge(src, dst) in r1 + r2
    {
      assert Splice.Lookup(c, dst) == Splice.Lookup(c1, dst) + Splice.Lookup(c2, dst);
    }
  }

  /** Merging sound graphs gives a sound graph. */
  lemma MergedGraphIsSound(
    r1: set<Edge>, c1: map<nat, set<nat>>, b1: map<Edge, set<Edge>>,
    r2: set<Edge>, c2: map<nat, set<nat>>, b2: map<Edge, set<Edge>>)
    requires GraphOk(r1, c1, b1) && GraphOk(r2, c2, b2)
    ensures GraphOk(r1 + r2, MergeSets(c1, c2), MergeSets(b1, b2))
  {
    hide HasStart, CallersInverse;
    forall e | e in r1 + r2
      ensures HasStart(MergeSets(b1, b2), e)
    {
      MergedStarts(b1, b2, e);
    }
    MergedCallers(r1, c1, r2, c2);
  }
}
