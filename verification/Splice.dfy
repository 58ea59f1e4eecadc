/** Splicing of a recorded trace: a jump to the exit address and the jump back
    from it become one edge with a fake source, and the four indexes of the
    emitted edge stream are built on the way. */
module Splice {
  import opened Common
  import opened Edges

  /** One line of a trace file; `num` is how often the edge was taken. */
  datatype Line = Line(edge: Edge, num: nat)

  /** What one trace contributes. */
  datatype Findings = Findings(
    bbs: set<nat>,
    edges: map<Edge, nat>,
    callers: map<nat, set<nat>>,
    backEdges: map<Edge, set<Edge>>)

  // ---------------------------------------------------------------------
  // The edge stream a trace stands for
  // ---------------------------------------------------------------------

  /** A step of the spliced trace, with its true source. */
  datatype Hop = Hop(edge: Edge, num: nat, spliced: bool)

  /** Every jump to the exit address is the last line or is followed at once by
      a jump from the exit address to some other address. */
  ghost predicate WellSpliced(t: seq<Line>) {
    forall i | 0 <= i < |t| - 1 :: PairedAt(t, i)
  }

  ghost predicate PairedAt(t: seq<Line>, i: nat)
    requires i + 1 < |t|
  {
    t[i].edge.dst == EXIT_IP ==> t[i + 1].edge.src == EXIT_IP && t[i + 1].edge.dst != EXIT_IP
  }

  /** An exit and the re-entry after it are one hop; an exit with nothing after
      it is dropped. */
  function Hops(t: seq<Line>): seq<Hop> {
    if t == [] then []
    else if t[0].edge.dst != EXIT_IP then [Hop(t[0].edge, t[0].num, false)] + Hops(t[1..])
    else if |t| == 1 then []
    else [Hop(Edge(t[0].edge.src, t[1].edge.dst), t[1].num, true)] + Hops(t[2..])
  }

  /** The edge that is recorded for a hop. */
  function Encode(h: Hop): Line {
    Line(if h.spliced then Edge(FakeExit(h.edge.src), h.edge.dst) else h.edge, h.num)
  }

  function EncodeAll(hops: seq<Hop>): (s: seq<Line>)
    ensures |s| == |hops| && forall i | 0 <= i < |s| :: s[i] == Encode(hops[i])
  {
    seq(|hops|, i requires 0 <= i < |hops| => Encode(hops[i]))
  }

  function Emitted(t: seq<Line>): seq<Line> {
    EncodeAll(Hops(t))
  }

  lemma EmittedPlain(t: seq<Line>, i: nat)
    requires i < |t| && t[i].edge.dst != EXIT_IP
    ensures Emitted(t[i..]) == [t[i]] + Emitted(t[i + 1..])
  {
    assert t[i..][1..] == t[i + 1..];
    EncodeAllCons(Hop(t[i].edge, t[i].num, false), Hops(t[i + 1..]));
  }

  lemma EmittedSpliced(t: seq<Line>, i: nat)
    requires i + 1 < |t| && t[i].edge.dst == EXIT_IP
    ensures Emitted(t[i..]) ==
            [Line(Edge(FakeExit(t[i].edge.src), t[i + 1].edge.dst), t[i + 1].num)] + Emitted(t[i + 2..])
  {
    assert t[i..][2..] == t[i + 2..] && t[i..][1] == t[i + 1];
    EncodeAllCons(Hop(Edge(t[i].edge.src, t[i + 1].edge.dst), t[i + 1].num, true), Hops(t[i + 2..]));
  }

  /** Nothing is emitted for an exit that ends the trace. */
  lemma EmittedAtEnd(t: seq<Line>)
    ensures Emitted(t[|t|..]) == []
    ensures t != [] && t[|t| - 1].edge.dst == EXIT_IP ==> Emitted(t[|t| - 1..]) == []
  {
  }

  /** The edge recorded for line `i`: a line right after an exit gets its fake source. */
  function EdgeAt(t: seq<Line>, i: nat): Edge
    requires i < |t|
  {
    if i > 0 && t[i - 1].edge.dst == EXIT_IP then Edge(FakeExit(t[i - 1].edge.src), t[i].edge.dst) else t[i].edge
  }

  /** The lines from `i` on that do not lead to the exit address, with the edges that
      are recorded for them; `at` tells which these are. */
  ghost predicate EmittedAt(t: seq<Line>, i: nat, s: seq<Line>, at: seq<nat>) {
    && |at| == |s| && Increasing(at)
    && (forall k | 0 <= k < |at| :: i <= at[k] < |t| && s[k] == Line(EdgeAt(t, at[k]), t[at[k]].num))
    && (forall j | i <= j < |t| :: j in at <==> t[j].edge.dst != EXIT_IP)
  }

  lemma EmittedAtCons(t: seq<Line>, i: nat, j: nat, s: seq<Line>, at: seq<nat>)
    requires i <= j < |t| && t[j].edge.dst != EXIT_IP && forall k | i <= k < j :: t[k].edge.dst == EXIT_IP
    requires EmittedAt(t, j + 1, s, at)
    ensures EmittedAt(t, i, [Line(EdgeAt(t, j), t[j].num)] + s, [j] + at)
  {
    hide EdgeAt;
    var at' := [j] + at;
    forall k | i <= k < |t|
      ensures k in at' <==> t[k].edge.dst != EXIT_IP
    {
      assert k in at' <==> k == j || k in at;
      if k <= j {
        assert k !in at;
      }
    }
    assert Increasing(at') by {
      assert forall k | 0 <= k < |at| :: at[k] >= j + 1;
    }
  }

  /** The emitted stream, line by line of the trace: nothing for an exit, and for any
      other line its edge, once, with its own count. */
  lemma {:induction false} EmittedInOrder(t: seq<Line>, i: nat) returns (at: seq<nat>)
    requires WellSpliced(t) && i <= |t| && (i > 0 ==> t[i - 1].edge.dst != EXIT_IP)
    ensures EmittedAt(t, i, Emitted(t[i..]), at)
    decreases |t| - i
  {
    hide EmittedAt, Emitted;
    if i == |t| || (i == |t| - 1 && t[i].edge.dst == EXIT_IP) {
      at := [];
      EmittedAtEnd(t);
      NothingEmitted(t, i);
    } else if t[i].edge.dst != EXIT_IP {
      at := EmittedInOrder(t, i + 1);
      EmittedPlain(t, i);
      EmittedAtCons(t, i, i, Emitted(t[i + 1..]), at);
      at := [i] + at;
    } else {
      assert PairedAt(t, i);
      at := EmittedInOrder(t, i + 2);
      EmittedSpliced(t, i);
      assert i + 1 + 1 == i + 2;
      EmittedAtCons(t, i, i + 1, Emitted(t[i + 2..]), at);
      at := [i + 1] + at;
    }
  }

  lemma NothingEmitted(t: seq<Line>, i: nat)
    requires i <= |t| && forall j | i <= j < |t| :: t[j].edge.dst == EXIT_IP
    ensures EmittedAt(t, i, [], [])
  {
  }

  lemma EncodeAllCons(h: Hop, hops: seq<Hop>)
    ensures EncodeAll([h] + hops) == [Encode(h)] + EncodeAll(hops)
  {
  }

  // ---------------------------------------------------------------------
  // What the indexes must say about an edge stream
  // ---------------------------------------------------------------------

  /** How often `e` was taken over the whole stream. */
  function TimesTaken(s: seq<Line>, e: Edge): nat {
    if s == [] then 0
    else TimesTaken(s[..|s| - 1], e) + if s[|s| - 1].edge == e then s[|s| - 1].num else 0
  }

  /** A line counts as often as it says, and counts add up. */
  lemma {:induction false} TimesTakenAddUp(s: seq<Line>, t: seq<Line>, x: Line, e: Edge)
    ensures TimesTaken([x], e) == if x.edge == e then x.num else 0
    ensures TimesTaken(s + t, e) == TimesTaken(s, e) + TimesTaken(t, e)
    decreases |t|
  {
    assert [x][..0] == [];
    if t == [] {
      assert s + t == s;
    } else {
      var init := t[..|t| - 1];
      TimesTakenAddUp(s, init, x, e);
      assert (s + t)[..|s + t| - 1] == s + init;
    }
  }

  function EdgeSet(s: seq<Line>): set<Edge> {
    set l | l in s :: l.edge
  }

  function PriorEdge(s: seq<Line>, i: nat): Edge
    requires i < |s|
  {
    if i == 0 then SENTINEL else s[i - 1].edge
  }

  ghost predicate EdgesAgree(s: seq<Line>, edges: map<Edge, nat>) {
    && edges.Keys == EdgeSet(s)
    && forall e | e in edges :: edges[e] == TimesTaken(s, e)
  }

  ghost predicate BbsAgree(s: seq<Line>, bbs: set<nat>) {
    bbs == (set l | l in s :: l.edge.src) + (set l | l in s :: l.edge.dst)
  }

  ghost predicate CallersAgree(s: seq<Line>, callers: map<nat, set<nat>>) {
    && callers.Keys == (set l | l in s :: l.edge.dst)
    && forall d | d in callers :: callers[d] == set l | l in s && l.edge.dst == d :: l.edge.src
  }

  ghost predicate BackEdgesAgree(s: seq<Line>, back: map<Edge, set<Edge>>) {
    && back.Keys == EdgeSet(s)
    && forall e | e in back :: back[e] == PriorEdges(s, e)
  }

  /** The edges seen right before the occurrences of `e`. */
  function PriorEdges(s: seq<Line>, e: Edge): set<Edge> {
    set i | 0 <= i < |s| && s[i].edge == e :: PriorEdge(s, i)
  }

  ghost predicate IndexesAgree(s: seq<Line>, f: Findings) {
    EdgesAgree(s, f.edges) && BbsAgree(s, f.bbs) && CallersAgree(s, f.callers) && BackEdgesAgree(s, f.backEdges)
  }

  // ---------------------------------------------------------------------
  // Recording one more edge
  // ---------------------------------------------------------------------

  function Lookup<K, V>(m: map<K, set<V>>, k: K): set<V> {
    if k in m then m[k] else {}
  }

  function Count<K>(m: map<K, nat>, k: K): nat {
    if k in m then m[k] else 0
  }

  /** `m.setdefault(k, set()).add(v)` */
  function AddTo<K, V>(m: map<K, set<V>>, k: K, v: V): map<K, set<V>> {
    m[k := Lookup(m, k) + {v}]
  }

  lemma TimesTakenAbsent(s: seq<Line>, e: Edge)
    requires e !in EdgeSet(s)
    ensures TimesTaken(s, e) == 0
  {
    if s != [] {
      var l := s[|s| - 1];
      assert l in s;
      assert l.edge in EdgeSet(s);
      assert EdgeSet(s[..|s| - 1]) <= EdgeSet(s);
    }
  }

  lemma EdgesGrow(s: seq<Line>, x: Line, edges: map<Edge, nat>)
    requires EdgesAgree(s, edges)
    ensures EdgesAgree(s + [x], edges[x.edge := Count(edges, x.edge) + x.num])
  {
    var s' := s + [x];
    assert s'[..|s|] == s;
    assert forall l :: l in s' <==> l in s || l == x;
    assert EdgeSet(s') == EdgeSet(s) + {x.edge};
    if x.edge !in edges {
      TimesTakenAbsent(s, x.edge);
    }
  }

  lemma BbsGrow(s: seq<Line>, x: Line, bbs: set<nat>)
    requires BbsAgree(s, bbs)
    ensures BbsAgree(s + [x], bbs + {x.edge.src, x.edge.dst})
  {
    assert forall l :: l in s + [x] <==> l in s || l == x;
  }

  lemma CallersGrow(s: seq<Line>, x: Line, callers: map<nat, set<nat>>)
    requires CallersAgree(s, callers)
    ensures CallersAgree(s + [x], AddTo(callers, x.edge.dst, x.edge.src))
  {
    var s' := s + [x];
    var callers' := AddTo(callers, x.edge.dst, x.edge.src);
    assert forall l :: l in s' <==> l in s || l == x;
    assert callers'.Keys == set l | l in s' :: l.edge.dst;
    forall d | d in callers'
      ensures callers'[d] == set l | l in s' && l.edge.dst == d :: l.edge.src
    {
      assert Lookup(callers, d) == set l | l in s && l.edge.dst == d :: l.edge.src;
    }
  }

  lemma BackEdgesGrow(s: seq<Line>, x: Line, back: map<Edge, set<Edge>>)
    requires BackEdgesAgree(s, back)
    ensures BackEdgesAgree(s + [x], AddTo(back, x.edge, LastEdge(s)))
  {
    var s' := s + [x];
    var last := LastEdge(s);
    var back' := AddTo(back, x.edge, last);
    assert forall l :: l in s' <==> l in s || l == x;
    assert back'.Keys == EdgeSet(s');
    forall e | e in back'
      ensures back'[e] == PriorEdges(s', e)
    {
      PriorEdgesSnoc(s, x, e);
      assert Lookup(back, e) == PriorEdges(s, e) by {
        if e !in back {
          NoPriorEdges(s, e);
        }
      }
    }
  }

  lemma NoPriorEdges(s: seq<Line>, e: Edge)
    requires e !in EdgeSet(s)
    ensures PriorEdges(s, e) == {}
  {
    assert forall i | 0 <= i < |s| :: s[i] in s && s[i].edge in EdgeSet(s);
  }

  lemma PriorEdgeKept(s: seq<Line>, x: Line, i: nat)
    requires i <= |s|
    ensures PriorEdge(s + [x], i) == if i < |s| then PriorEdge(s, i) else LastEdge(s)
    ensures (s + [x])[i] == if i < |s| then s[i] else x
  {
  }

  lemma PriorEdgesSnoc(s: seq<Line>, x: Line, e: Edge)
    ensures PriorEdges(s + [x], e) == PriorEdges(s, e) + if e == x.edge then {LastEdge(s)} else {}
  {
    hide PriorEdge, LastEdge;
    var s' := s + [x];
    forall i: nat | i <= |s|
      ensures PriorEdge(s', i) == if i < |s| then PriorEdge(s, i) else LastEdge(s)
      ensures s'[i] == if i < |s| then s[i] else x
    {
      PriorEdgeKept(s, x, i);
    }
    forall p
      ensures p in PriorEdges(s', e) <==> p in PriorEdges(s, e) || (e == x.edge && p == LastEdge(s))
    {
      if p in PriorEdges(s, e) {
        var i: nat :| i < |s| && s[i].edge == e && p == PriorEdge(s, i);
        assert s'[i].edge == e && p == PriorEdge(s', i);
      }
      assert s'[|s|] == x && PriorEdge(s', |s|) == LastEdge(s);
    }
  }

  function LastEdge(s: seq<Line>): Edge {
    if s == [] then SENTINEL else s[|s| - 1].edge
  }

  lemma IndexesGrow(s: seq<Line>, x: Line, f: Findings)
    requires IndexesAgree(s, f)
    ensures IndexesAgree(s + [x], Findings(
      f.bbs + {x.edge.src, x.edge.dst},
      f.edges[x.edge := Count(f.edges, x.edge) + x.num],
      AddTo(f.callers, x.edge.dst, x.edge.src),
      AddTo(f.backEdges, x.edge, LastEdge(s))))
  {
    EdgesGrow(s, x, f.edges);
    BbsGrow(s, x, f.bbs);
    CallersGrow(s, x, f.callers);
    BackEdgesGrow(s, x, f.backEdges);
  }

  lemma NothingRecorded()
    ensures IndexesAgree([], Findings({}, map[], map[], map[]))
  {
  }

  // ---------------------------------------------------------------------
  // The loop over the lines of a trace file
  // ---------------------------------------------------------------------

  /** Splices a trace and indexes what it emits. The two assertions in the loop
      fail on exactly the traces that are not well spliced. */
  method ParseSpliceTrace(t: seq<Line>) returns (r: Outcome<Findings>)
    ensures r.Ok? <==> WellSpliced(t)
    ensures r.Ok? ==> IndexesAgree(Emitted(t), r.value)
  {
    hide IndexesAgree, Hops, EncodeAll;
    NothingRecorded();
    var bbs: set<nat> := {};
    var edges: map<Edge, nat> := map[];
    var callers: map<nat, set<nat>> := map[];
    var backEdges: map<Edge, set<Edge>> := map[];
    var prevIp := 0;
    var lastEdge := SENTINEL;
    ghost var stream: seq<Line> := [];
    var i := 0;
    while i < |t|
      invariant 0 <= i <= |t|
      invariant IndexesAgree(stream, Findings(bbs, edges, callers, backEdges))
      invariant lastEdge == LastEdge(stream)
      invariant forall k | 0 <= k < i - 1 :: PairedAt(t, k)
      // no exit pending: the rest of the trace is still to be emitted
      invariant prevIp == 0 ==> Emitted(t) == stream + Emitted(t[i..])
      invariant prevIp == 0 && i > 0 ==> t[i - 1].edge.dst != EXIT_IP
      // an exit pending: so is the line before
      invariant prevIp != 0 ==> i > 0 && t[i - 1].edge.dst == EXIT_IP && prevIp == FakeExit(t[i - 1].edge.src)
      invariant prevIp != 0 ==> Emitted(t) == stream + Emitted(t[i - 1..])
    {
      var src, dst, num := t[i].edge.src, t[i].edge.dst, t[i].num;
      if dst == EXIT_IP {
        if prevIp != 0 {
          assert !PairedAt(t, i - 1);
          return Failed;
        }
        FakeExitIsTraceExit(src);
        prevIp := FakeExit(src);
        i := i + 1;
        continue;
      }
      if prevIp != 0 {
        if src != EXIT_IP {
          assert !PairedAt(t, i - 1);
          return Failed;
        }
        EmittedSpliced(t, i - 1);
        src := prevIp;
        prevIp := 0;
      } else {
        EmittedPlain(t, i);
      }
      var edge := Edge(src, dst);
      ghost var x := Line(edge, num);
      IndexesGrow(stream, x, Findings(bbs, edges, callers, backEdges));
      edges := edges[edge := Count(edges, edge) + num];
      backEdges := AddTo(backEdges, edge, lastEdge);
      callers := AddTo(callers, dst, src);
      bbs := bbs + {src, dst};
      lastEdge := edge;
      stream := stream + [x];
      i := i + 1;
    }
    EmittedAtEnd(t);
    assert Emitted(t) == stream;
    return Ok(Findings(bbs, edges, callers, backEdges));
  }

  // ---------------------------------------------------------------------
  // Consequences
  // ---------------------------------------------------------------------

  lemma WellSplicedDrop(t: seq<Line>, k: nat)
    requires WellSpliced(t) && k <= |t|
    ensures WellSpliced(t[k..])
  {
    forall i | 0 <= i < |t| - k - 1
      ensures PairedAt(t[k..], i)
    {
      assert PairedAt(t, i + k);
    }
  }

  lemma {:induction false} EmittedNeverExits(t: seq<Line>)
    requires WellSpliced(t)
    ensures forall l | l in Emitted(t) :: l.edge.dst != EXIT_IP
  {
    if t != [] {
      if t[0].edge.dst != EXIT_IP {
        WellSplicedDrop(t, 1);
        EmittedNeverExits(t[1..]);
        EmittedPlain(t, 0);
      } else if |t| > 1 {
        assert PairedAt(t, 0);
        WellSplicedDrop(t, 2);
        EmittedNeverExits(t[2..]);
        EmittedSpliced(t, 0);
      }
      assert t[0..] == t;
    }
  }

  /** The sentinel before the first edge is never itself recorded. */
  lemma SentinelNeverRecorded(t: seq<Line>, f: Findings)
    requires WellSpliced(t) && IndexesAgree(Emitted(t), f)
    ensures SENTINEL !in f.edges && SENTINEL !in f.backEdges && EXIT_IP !in f.callers
  {
    EmittedNeverExits(t);
  }

  /** `callers` is the inverse of the recorded edges. */
  lemma CallersInvertEdges(s: seq<Line>, f: Findings, src: nat, dst: nat)
    requires IndexesAgree(s, f)
    ensures src in Lookup(f.callers, dst) <==> Edge(src, dst) in f.edges
  {
    if src in Lookup(f.callers, dst) {
      var l :| l in s && l.edge.dst == dst && l.edge.src == src;
      assert l.edge == Edge(src, dst);
    }
    if Edge(src, dst) in f.edges {
      var l :| l in s && l.edge == Edge(src, dst);
    }
  }
}
