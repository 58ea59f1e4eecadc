/** What merging many traces adds up to, independent of the order of the traces. */
module TraceReports {
  import opened Common
  import opened Edges
  import opened TraceGraph
  import Splice

  /** The result for one input: nothing when its trace file was missing. */
  datatype TraceResult = TraceResult(timestamp: int, findings: Option<Splice.Findings>)

  /** A line of the coverage plot. */
  datatype Row = Row(timestamp: int, bbs: int, edges: int)

  /** The timestamps of the traces that were found. */
  function TimestampsOf(results: seq<TraceResult>): seq<int> {
    if results == [] then []
    else
      var r := results[|results| - 1];
      TimestampsOf(results[..|results| - 1]) + if r.findings.Some? then [r.timestamp] else []
  }

  /** The traces that were found. */
  function FindingsOf(results: seq<TraceResult>): seq<Splice.Findings> {
    if results == [] then []
    else
      var r := results[|results| - 1];
      FindingsOf(results[..|results| - 1]) + if r.findings.Some? then [r.findings.value] else []
  }

  /** The results with findings, in order; `at` tells which these are. */
  ghost predicate PresentAt(results: seq<TraceResult>, timestamps: seq<int>, fs: seq<Splice.Findings>, at: seq<nat>) {
    && |at| == |fs| == |timestamps| && Increasing(at)
    && (forall k | 0 <= k < |at| ::
          && at[k] < |results| && results[at[k]] == TraceResult(timestamps[k], Some(fs[k])))
    && (forall i | 0 <= i < |results| && results[i].findings.Some? :: i in at)
  }

  lemma PresentAtStep(results: seq<TraceResult>, n: nat, timestamps: seq<int>, fs: seq<Splice.Findings>, at: seq<nat>)
    requires n < |results| && PresentAt(results[..n], timestamps, fs, at)
    ensures results[n].findings.None? ==> PresentAt(results[..n + 1], timestamps, fs, at)
    ensures results[n].findings.Some? ==>
              PresentAt(results[..n + 1], timestamps + [results[n].timestamp], fs + [results[n].findings.value], at + [n])
  {
    assert forall j | 0 <= j < n :: results[..n][j] == results[..n + 1][j];
    assert (at + [n])[|at|] == n && forall j | j in at :: j in at + [n];
  }

  /** What is reported on, and when, are the results with findings and their own times. */
  lemma {:induction false} PresentInOrder(results: seq<TraceResult>, n: nat) returns (at: seq<nat>)
    requires n <= |results|
    ensures PresentAt(results[..n], TimestampsOf(results[..n]), FindingsOf(results[..n]), at)
  {
    if n == 0 {
      at := [];
    } else {
      at := PresentInOrder(results, n - 1);
      hide PresentAt, TimestampsOf, FindingsOf;
      PresentAtStep(results, n - 1, TimestampsOf(results[..n - 1]), FindingsOf(results[..n - 1]), at);
      PresentStep(results, n - 1);
      at := if results[n - 1].findings.Some? then at + [n - 1] else at;
    }
  }

  lemma NothingPresent()
    ensures FindingsOf([]) == [] && TimestampsOf([]) == []
  {
  }

  lemma PresentStep(results: seq<TraceResult>, i: nat)
    requires i < |results|
    ensures results[i].findings.Some? ==>
              && FindingsOf(results[..i + 1]) == FindingsOf(results[..i]) + [results[i].findings.value]
              && TimestampsOf(results[..i + 1]) == TimestampsOf(results[..i]) + [results[i].timestamp]
    ensures results[i].findings.None? ==>
              && FindingsOf(results[..i + 1]) == FindingsOf(results[..i])
              && TimestampsOf(results[..i + 1]) == TimestampsOf(results[..i])
  {
    assert results[..i + 1][..i] == results[..i];
  }

  function UnionBbs(fs: seq<Splice.Findings>): set<nat> {
    set f, b | f in fs && b in f.bbs :: b
  }

  function UnionEdges(fs: seq<Splice.Findings>): set<Edge> {
    set f, e | f in fs && e in f.edges :: e
  }

  function UnionCallers(fs: seq<Splice.Findings>, dst: nat): set<nat> {
    set f, s | f in fs && s in Splice.Lookup(f.callers, dst) :: s
  }

  function UnionBackEdges(fs: seq<Splice.Findings>, e: Edge): set<Edge> {
    set f, p | f in fs && p in Splice.Lookup(f.backEdges, e) :: p
  }

  /** How often an edge was taken over all traces. */
  function SumTaken(fs: seq<Splice.Findings>, e: Edge): nat {
    if fs == [] then 0
    else SumTaken(fs[..|fs| - 1], e) + Splice.Count(fs[|fs| - 1].edges, e)
  }

  /** Everything the merged state holds. */
  ghost predicate SameTotals(fs: seq<Splice.Findings>, gs: seq<Splice.Findings>) {
    && UnionBbs(fs) == UnionBbs(gs)
    && UnionEdges(fs) == UnionEdges(gs)
    && (forall e :: SumTaken(fs, e) == SumTaken(gs, e))
    && (forall d :: UnionCallers(fs, d) == UnionCallers(gs, d))
    && (forall e :: UnionBackEdges(fs, e) == UnionBackEdges(gs, e))
  }

  lemma {:induction false} SumTakenWithout(fs: seq<Splice.Findings>, i: nat, e: Edge)
    requires i < |fs|
    ensures SumTaken(fs, e) == SumTaken(fs[..i] + fs[i + 1..], e) + Splice.Count(fs[i].edges, e)
  {
    var rest := fs[..i] + fs[i + 1..];
    if i == |fs| - 1 {
      assert rest == fs[..i];
    } else {
      var init := fs[..|fs| - 1];
      SumTakenWithout(init, i, e);
      assert rest[..|rest| - 1] == init[..i] + init[i + 1..];
    }
  }

  lemma {:induction false} SumTakenIgnoresOrder(fs: seq<Splice.Findings>, gs: seq<Splice.Findings>, e: Edge)
    requires multiset(fs) == multiset(gs)
    ensures SumTaken(fs, e) == SumTaken(gs, e)
    decreases |fs|
  {
    assert |multiset(fs)| == |fs| && |multiset(gs)| == |gs|;
    if fs != [] {
      var last := fs[|fs| - 1];
      assert last in multiset(gs);
      var i :| 0 <= i < |gs| && gs[i] == last;
      var rest := gs[..i] + gs[i + 1..];
      assert gs == gs[..i] + [last] + gs[i + 1..];
      assert fs == fs[..|fs| - 1] + [last];
      assert multiset(rest) == multiset(gs) - multiset{last};
      SumTakenWithout(gs, i, e);
      SumTakenIgnoresOrder(fs[..|fs| - 1], rest, e);
    }
  }

  /** The final totals do not depend on the order of the traces. */
  lemma TotalsIgnoreOrder(fs: seq<Splice.Findings>, gs: seq<Splice.Findings>)
    requires multiset(fs) == multiset(gs)
    ensures SameTotals(fs, gs)
  {
    assert forall f :: f in fs <==> f in multiset(fs);
    assert forall f :: f in gs <==> f in multiset(gs);
    forall e
      ensures SumTaken(fs, e) == SumTaken(gs, e)
    {
      SumTakenIgnoresOrder(fs, gs, e);
    }
  }

  /** Coverage never falls from one trace to a later one. */
  lemma CoverageGrows(fs: seq<Splice.Findings>, bbs: set<nat>, edges: set<Edge>, j: nat, k: nat)
    requires j <= k <= |fs|
    ensures |bbs + UnionBbs(fs[..j])| <= |bbs + UnionBbs(fs[..k])|
    ensures |edges + UnionEdges(fs[..j])| <= |edges + UnionEdges(fs[..k])|
  {
    assert fs[..j] == fs[..k][..j];
    assert forall f :: f in fs[..j] ==> f in fs[..k];
    SubsetCount(bbs + UnionBbs(fs[..j]), bbs + UnionBbs(fs[..k]));
    SubsetCount(edges + UnionEdges(fs[..j]), edges + UnionEdges(fs[..k]));
  }

  // One more trace.

  lemma CoverageStep(fs: seq<Splice.Findings>, f: Splice.Findings)
    ensures UnionBbs(fs + [f]) == UnionBbs(fs) + f.bbs
    ensures UnionEdges(fs + [f]) == UnionEdges(fs) + f.edges.Keys
  {
    assert forall x :: x in fs + [f] <==> x in fs || x == f;
  }

  lemma CallersStep(fs: seq<Splice.Findings>, f: Splice.Findings, dst: nat)
    ensures UnionCallers(fs + [f], dst) == UnionCallers(fs, dst) + Splice.Lookup(f.callers, dst)
  {
    assert forall x :: x in fs + [f] <==> x in fs || x == f;
  }

  lemma BackEdgesStep(fs: seq<Splice.Findings>, f: Splice.Findings, e: Edge)
    ensures UnionBackEdges(fs + [f], e) == UnionBackEdges(fs, e) + Splice.Lookup(f.backEdges, e)
  {
    assert forall x :: x in fs + [f] <==> x in fs || x == f;
  }

  lemma SumTakenStep(fs: seq<Splice.Findings>, f: Splice.Findings, e: Edge)
    ensures SumTaken(fs + [f], e) == SumTaken(fs, e) + Splice.Count(f.edges, e)
  {
    assert (fs + [f])[..|fs|] == fs;
  }

  /** The merged indexes of a trace parser. */
  datatype Totals = Totals(
    bbs: set<nat>, edges: map<Edge, nat>, callers: map<nat, set<nat>>, back: map<Edge, set<Edge>>)
  {
    ghost predicate Sound() {
      GraphOk(edges.Keys, callers, back)
    }
  }

  /** `t` is `t0` after merging the traces `fs`. */
  ghost predicate MergedFrom(t0: Totals, fs: seq<Splice.Findings>, t: Totals) {
    && t.bbs == t0.bbs + UnionBbs(fs)
    && t.edges.Keys == t0.edges.Keys + UnionEdges(fs)
    && (forall e | e in t.edges :: t.edges[e] == Splice.Count(t0.edges, e) + SumTaken(fs, e))
    && (forall d :: Splice.Lookup(t.callers, d) == Splice.Lookup(t0.callers, d) + UnionCallers(fs, d))
    && (forall e :: Splice.Lookup(t.back, e) == Splice.Lookup(t0.back, e) + UnionBackEdges(fs, e))
  }

  ghost predicate AllSound(fs: seq<Splice.Findings>) {
    forall f | f in fs :: GraphOk(f.edges.Keys, f.callers, f.backEdges)
  }

  /** The row after each trace counts what is new since `t0`. */
  ghost predicate RowsCount(t0: Totals, timestamps: seq<int>, fs: seq<Splice.Findings>, rows: seq<Row>) {
    && |rows| == |timestamps| == |fs|
    && forall k | 0 <= k < |rows| :: rows[k] == RowAfter(t0, timestamps, fs, k)
  }

  ghost function RowAfter(t0: Totals, timestamps: seq<int>, fs: seq<Splice.Findings>, k: nat): Row
    requires k < |timestamps| == |fs|
  {
    Row(timestamps[k],
        |t0.bbs + UnionBbs(fs[..k + 1])| - |t0.bbs|,
        |t0.edges.Keys + UnionEdges(fs[..k + 1])| - |t0.edges.Keys|)
  }

  /** The rows never decrease. */
  lemma RowsNeverDecrease(t0: Totals, timestamps: seq<int>, fs: seq<Splice.Findings>, rows: seq<Row>, j: nat, k: nat)
    requires RowsCount(t0, timestamps, fs, rows) && j <= k < |rows|
    ensures rows[j].bbs <= rows[k].bbs && rows[j].edges <= rows[k].edges
  {
    CoverageGrows(fs, t0.bbs, t0.edges.Keys, j + 1, k + 1);
  }

  ghost predicate CountsAdded<K>(a: map<K, nat>, b: map<K, nat>, m: map<K, nat>) {
    && m.Keys == a.Keys + b.Keys
    && (forall k | k in m :: m[k] == Splice.Count(a, k) + Splice.Count(b, k))
  }

  /** `t'` is `t` after merging one more trace. */
  ghost predicate OneMore(t: Totals, f: Splice.Findings, t': Totals) {
    && t'.bbs == t.bbs + f.bbs
    && CountsAdded(t.edges, f.edges, t'.edges)
    && t'.callers == MergeSets(t.callers, f.callers)
    && t'.back == MergeSets(t.back, f.backEdges)
  }

  /** The coverage after one more trace, counted from any earlier coverage. */
  lemma CoverageSince(
    fs: seq<Splice.Findings>, f: Splice.Findings, bbs0: set<nat>, bbs: set<nat>, edges0: set<Edge>, edges: set<Edge>)
    requires bbs == bbs0 + UnionBbs(fs) && edges == edges0 + UnionEdges(fs)
    ensures bbs0 + UnionBbs(fs + [f]) == bbs + f.bbs
    ensures edges0 + UnionEdges(fs + [f]) == edges + f.edges.Keys
  {
    hide UnionBbs, UnionEdges;
    CoverageStep(fs, f);
  }

  lemma MergedCountStep(t0: Totals, fs: seq<Splice.Findings>, t: Totals, f: Splice.Findings, t': Totals, e: Edge)
    requires MergedFrom(t0, fs, t) && OneMore(t, f, t') && e in t'.edges
    ensures t'.edges[e] == Splice.Count(t0.edges, e) + SumTaken(fs + [f], e)
  {
    hide UnionBbs, SumTaken, UnionCallers, UnionBackEdges;
    SumTakenStep(fs, f, e);
    if e !in t.edges {
      SumTakenAbsent(fs, e);
    }
  }

  lemma MergedCallersStep(t0: Totals, fs: seq<Splice.Findings>, t: Totals, f: Splice.Findings, t': Totals, d: nat)
    requires MergedFrom(t0, fs, t) && OneMore(t, f, t')
    ensures Splice.Lookup(t'.callers, d) == Splice.Lookup(t0.callers, d) + UnionCallers(fs + [f], d)
  {
    hide UnionBbs, UnionEdges, SumTaken, UnionCallers, UnionBackEdges;
    CallersStep(fs, f, d);
    assert Splice.Lookup(t'.callers, d) == Splice.Lookup(t.callers, d) + Splice.Lookup(f.callers, d);
  }

  lemma MergedBackEdgesStep(t0: Totals, fs: seq<Splice.Findings>, t: Totals, f: Splice.Findings, t': Totals, e: Edge)
    requires MergedFrom(t0, fs, t) && OneMore(t, f, t')
    ensures Splice.Lookup(t'.back, e) == Splice.Lookup(t0.back, e) + UnionBackEdges(fs + [f], e)
  {
    hide UnionBbs, UnionEdges, SumTaken, UnionCallers, UnionBackEdges;
    BackEdgesStep(fs, f, e);
    assert Splice.Lookup(t'.back, e) == Splice.Lookup(t.back, e) + Splice.Lookup(f.backEdges, e);
  }

  lemma MergedStep(t0: Totals, fs: seq<Splice.Findings>, t: Totals, f: Splice.Findings, t': Totals)
    requires MergedFrom(t0, fs, t) && OneMore(t, f, t')
    ensures MergedFrom(t0, fs + [f], t')
  {
    hide UnionBbs, UnionEdges, SumTaken, UnionCallers, UnionBackEdges, MergeSets, Splice.Lookup, Splice.Count;
    CoverageSince(fs, f, t0.bbs, t.bbs, t0.edges.Keys, t.edges.Keys);
    forall e | e in t'.edges
      ensures t'.edges[e] == Splice.Count(t0.edges, e) + SumTaken(fs + [f], e)
    {
      MergedCountStep(t0, fs, t, f, t', e);
    }
    forall d
      ensures Splice.Lookup(t'.callers, d) == Splice.Lookup(t0.callers, d) + UnionCallers(fs + [f], d)
    {
      MergedCallersStep(t0, fs, t, f, t', d);
    }
    forall e
      ensures Splice.Lookup(t'.back, e) == Splice.Lookup(t0.back, e) + UnionBackEdges(fs + [f], e)
    {
      MergedBackEdgesStep(t0, fs, t, f, t', e);
    }
  }

  lemma {:induction false} SumTakenAbsent(fs: seq<Splice.Findings>, e: Edge)
    requires e !in UnionEdges(fs)
    ensures SumTaken(fs, e) == 0
  {
    if fs != [] {
      var init := fs[..|fs| - 1];
      assert forall f | f in init :: f in fs;
      assert fs[|fs| - 1] in fs;
      SumTakenAbsent(init, e);
    }
  }

  lemma RowKept(t0: Totals, timestamps: seq<int>, fs: seq<Splice.Findings>, timestamp: int, f: Splice.Findings, k: nat)
    requires k < |timestamps| == |fs|
    ensures RowAfter(t0, timestamps + [timestamp], fs + [f], k) == RowAfter(t0, timestamps, fs, k)
  {
    assert (fs + [f])[..k + 1] == fs[..k + 1];
  }

  lemma NewRow(t0: Totals, timestamps: seq<int>, fs: seq<Splice.Findings>, t: Totals, timestamp: int, f: Splice.Findings)
    requires |timestamps| == |fs|
    requires t.bbs == t0.bbs + UnionBbs(fs) && t.edges.Keys == t0.edges.Keys + UnionEdges(fs)
    ensures RowAfter(t0, timestamps + [timestamp], fs + [f], |fs|) ==
            Row(timestamp, |t.bbs + f.bbs| - |t0.bbs|, |t.edges.Keys + f.edges.Keys| - |t0.edges.Keys|)
  {
    hide UnionBbs, UnionEdges;
    assert (fs + [f])[..|fs| + 1] == fs + [f];
    CoverageSince(fs, f, t0.bbs, t.bbs, t0.edges.Keys, t.edges.Keys);
  }

  lemma RowsStep(
    t0: Totals, timestamps: seq<int>, fs: seq<Splice.Findings>, rows: seq<Row>,
    t: Totals, timestamp: int, f: Splice.Findings)
    requires RowsCount(t0, timestamps, fs, rows)
    requires t.bbs == t0.bbs + UnionBbs(fs) && t.edges.Keys == t0.edges.Keys + UnionEdges(fs)
    ensures RowsCount(t0, timestamps + [timestamp], fs + [f], rows + [Row(timestamp,
              |t.bbs + f.bbs| - |t0.bbs|, |t.edges.Keys + f.edges.Keys| - |t0.edges.Keys|)])
  {
    hide UnionBbs, UnionEdges, RowAfter;
    NewRow(t0, timestamps, fs, t, timestamp, f);
    forall k | 0 <= k < |fs|
      ensures RowAfter(t0, timestamps + [timestamp], fs + [f], k) == RowAfter(t0, timestamps, fs, k)
    {
      RowKept(t0, timestamps, fs, timestamp, f, k);
    }
  }

  /** Merging one more sound trace keeps the graph sound. */
  lemma SoundStep(fs: seq<Splice.Findings>, t: Totals, f: Splice.Findings, t': Totals)
    requires OneMore(t, f, t') && AllSound(fs + [f])
    ensures AllSound(fs)
    ensures t.Sound() ==> t'.Sound()
  {
    hide GraphOk;
    assert forall x :: x in fs + [f] <==> x in fs || x == f;
    if t.Sound() {
      MergedGraphIsSound(t.edges.Keys, t.callers, t.back, f.edges.Keys, f.callers, f.backEdges);
    }
  }

  /** The row printed after one more trace. */
  lemma ReportStep(
    t0: Totals, timestamps: seq<int>, fs: seq<Splice.Findings>, rows: seq<Row>,
    t: Totals, f: Splice.Findings, t': Totals, row: Row)
    requires t.bbs == t0.bbs + UnionBbs(fs) && t.edges.Keys == t0.edges.Keys + UnionEdges(fs)
    requires t'.bbs == t.bbs + f.bbs && t'.edges.Keys == t.edges.Keys + f.edges.Keys
    requires row.bbs == |t'.bbs| - |t0.bbs| && row.edges == |t'.edges.Keys| - |t0.edges.Keys|
    requires RowsCount(t0, timestamps, fs, rows)
    ensures RowsCount(t0, timestamps + [row.timestamp], fs + [f], rows + [row])
  {
    hide UnionBbs, UnionEdges;
    RowsStep(t0, timestamps, fs, rows, t, row.timestamp, f);
  }

  lemma MergedCoverage(t0: Totals, fs: seq<Splice.Findings>, t: Totals)
    requires MergedFrom(t0, fs, t)
    ensures t.bbs == t0.bbs + UnionBbs(fs) && t.edges.Keys == t0.edges.Keys + UnionEdges(fs)
  {
  }

  lemma CoverageOfOneMore(t: Totals, f: Splice.Findings, t': Totals)
    requires OneMore(t, f, t')
    ensures t'.bbs == t.bbs + f.bbs && t'.edges.Keys == t.edges.Keys + f.edges.Keys
  {
  }

  /** What the loop over the traces keeps. */
  ghost predicate Reported(t0: Totals, timestamps: seq<int>, fs: seq<Splice.Findings>, rows: seq<Row>, t: Totals) {
    && MergedFrom(t0, fs, t)
    && RowsCount(t0, timestamps, fs, rows)
    && (t0.Sound() && AllSound(fs) ==> t.Sound())
  }

  lemma ReportLoopStep(
    t0: Totals, timestamps: seq<int>, fs: seq<Splice.Findings>, rows: seq<Row>,
    t: Totals, f: Splice.Findings, t': Totals, row: Row)
    requires Reported(t0, timestamps, fs, rows, t) && OneMore(t, f, t')
    requires row.bbs == |t'.bbs| - |t0.bbs| && row.edges == |t'.edges.Keys| - |t0.edges.Keys|
    ensures Reported(t0, timestamps + [row.timestamp], fs + [f], rows + [row], t')
  {
    hide MergedFrom, OneMore, RowsCount, AllSound, GraphOk, UnionBbs, UnionEdges;
    assert MergedFrom(t0, fs + [f], t') by {
      MergedStep(t0, fs, t, f, t');
    }
    assert RowsCount(t0, timestamps + [row.timestamp], fs + [f], rows + [row]) by {
      MergedCoverage(t0, fs, t);
      CoverageOfOneMore(t, f, t');
      ReportStep(t0, timestamps, fs, rows, t, f, t', row);
    }
    if t0.Sound() && AllSound(fs + [f]) {
      SoundStep(fs, t, f, t');
    }
  }

  lemma NothingReported(t: Totals)
    ensures Reported(t, [], [], [], t)
  {
  }

  lemma UnionCount<T>(a: set<T>, b: set<T>)
    ensures |a + b| == |a| + |b - a|
  {
    SubsetCount(a, a + b);
    assert b - a == a + b - a;
  }

  /** What a trace adds to the coverage counts. */
  lemma NewCoverage(t: Totals, f: Splice.Findings, t': Totals)
    requires OneMore(t, f, t')
    ensures |t'.bbs| == |t.bbs| + |f.bbs - t.bbs|
    ensures |t'.edges.Keys| == |t.edges.Keys| + |f.edges.Keys - t.edges.Keys|
  {
    hide OneMore;
    CoverageOfOneMore(t, f, t');
    UnionCount(t.bbs, f.bbs);
    UnionCount(t.edges.Keys, f.edges.Keys);
  }

  // Two reports on the same results, in any order.

  function Own(result: TraceResult): multiset<Splice.Findings> {
    if result.findings.Some? then multiset{result.findings.value} else multiset{}
  }

  lemma FindingsSplit(results: seq<TraceResult>)
    requires results != []
    ensures multiset(FindingsOf(results)) ==
            multiset(FindingsOf(results[..|results| - 1])) + Own(results[|results| - 1])
  {
  }

  lemma {:induction false} FindingsWithout(results: seq<TraceResult>, i: nat)
    requires i < |results|
    ensures multiset(FindingsOf(results)) == multiset(FindingsOf(results[..i] + results[i + 1..])) + Own(results[i])
  {
    hide FindingsOf, Own;
    var rest, n := results[..i] + results[i + 1..], |results| - 1;
    FindingsSplit(results);
    if i == n {
      assert rest == results[..n];
    } else {
      FindingsWithout(results[..n], i);
      assert rest[..n - 1] == results[..n][..i] + results[..n][i + 1..];
      FindingsSplit(rest);
    }
  }

  lemma {:induction false} FindingsIgnoreOrder(results: seq<TraceResult>, results': seq<TraceResult>)
    requires multiset(results) == multiset(results')
    ensures multiset(FindingsOf(results)) == multiset(FindingsOf(results'))
    decreases |results|
  {
    hide FindingsOf, Own;
    assert |multiset(results)| == |results| && |multiset(results')| == |results'|;
    if results != [] {
      var last := results[|results| - 1];
      assert last in multiset(results');
      var i :| 0 <= i < |results'| && results'[i] == last;
      var rest := results'[..i] + results'[i + 1..];
      assert results' == results'[..i] + [last] + results'[i + 1..];
      assert results == results[..|results| - 1] + [last];
      assert multiset(rest) == multiset(results') - multiset{last};
      FindingsSplit(results);
      FindingsWithout(results', i);
      FindingsIgnoreOrder(results[..|results| - 1], rest);
    } else {
      assert results' == [];
    }
  }

  /** Two states with the same coverage and counts that look up the same. */
  ghost predicate SameState(t: Totals, u: Totals) {
    && t.bbs == u.bbs && t.edges == u.edges
    && (forall d :: Splice.Lookup(t.callers, d) == Splice.Lookup(u.callers, d))
    && (forall e :: Splice.Lookup(t.back, e) == Splice.Lookup(u.back, e))
  }

  lemma MergedStateFixed(t0: Totals, fs: seq<Splice.Findings>, t: Totals, fs': seq<Splice.Findings>, t': Totals)
    requires SameTotals(fs, fs') && MergedFrom(t0, fs, t) && MergedFrom(t0, fs', t')
    ensures SameState(t, t')
  {
    hide UnionBbs, UnionEdges, SumTaken, UnionCallers, UnionBackEdges, Splice.Count;
    assert t.edges.Keys == t'.edges.Keys;
  }

  /** The last row counts everything that is new since `t0`. */
  lemma LastRow(t0: Totals, timestamps: seq<int>, fs: seq<Splice.Findings>, rows: seq<Row>, t: Totals)
    requires Reported(t0, timestamps, fs, rows, t) && rows != []
    ensures rows[|rows| - 1].bbs == |t.bbs| - |t0.bbs|
    ensures rows[|rows| - 1].edges == |t.edges.Keys| - |t0.edges.Keys|
  {
    hide UnionBbs, UnionEdges, MergedFrom, AllSound, GraphOk;
    MergedCoverage(t0, fs, t);
    var k := |rows| - 1;
    assert fs[..k + 1] == fs;
    assert rows[k] == RowAfter(t0, timestamps, fs, k);
  }

  /** Two reports that start alike and see the same results, in whatever order, end
      in the same state, with the same coverage in the last row. */
  lemma ReportsIgnoreOrder(
    t0: Totals, results: seq<TraceResult>, rows: seq<Row>, t: Totals,
    results': seq<TraceResult>, rows': seq<Row>, t': Totals)
    requires multiset(results) == multiset(results')
    requires Reported(t0, TimestampsOf(results), FindingsOf(results), rows, t)
    requires Reported(t0, TimestampsOf(results'), FindingsOf(results'), rows', t')
    ensures SameState(t, t') && |rows| == |rows'|
    ensures rows != [] ==>
              && rows[|rows| - 1].bbs == rows'[|rows'| - 1].bbs
              && rows[|rows| - 1].edges == rows'[|rows'| - 1].edges
  {
    hide MergedFrom, SameTotals, FindingsOf, TimestampsOf, RowAfter;
    var fs, fs' := FindingsOf(results), FindingsOf(results');
    FindingsIgnoreOrder(results, results');
    assert |multiset(fs)| == |fs| && |multiset(fs')| == |fs'|;
    TotalsIgnoreOrder(fs, fs');
    MergedStateFixed(t0, fs, t, fs', t');
    if rows != [] {
      LastRow(t0, TimestampsOf(results), fs, rows, t);
      LastRow(t0, TimestampsOf(results'), fs', rows', t');
    }
  }

  // ---------------------------------------------------------------------
  // The merging loops
  // ---------------------------------------------------------------------

  /** Adds every set of one dictionary to another. */
  method UpdateSets<K(==), V>(into: map<K, set<V>>, other: map<K, set<V>>) returns (m: map<K, set<V>>)
    ensures m == MergeSets(into, other)
  {
    hide MergeSets;
    m := into;
    var todo := other.Keys;
    while todo != {}
      invariant todo <= other.Keys
      invariant m.Keys == into.Keys + (other.Keys - todo)
      invariant forall k | k in m && k in todo :: m[k] == Splice.Lookup(into, k)
      invariant forall k | k in m && k !in todo :: m[k] == Splice.Lookup(into, k) + Splice.Lookup(other, k)
    {
      var k :| k in todo;
      m := m[k := Splice.Lookup(m, k) + other[k]];
      todo := todo - {k};
    }
    MergeSetsUnique(into, other, m);
  }

  lemma MergeSetsUnique<K, V>(a: map<K, set<V>>, b: map<K, set<V>>, m: map<K, set<V>>)
    requires m.Keys == a.Keys + b.Keys
    requires forall k | k in m :: m[k] == Splice.Lookup(a, k) + Splice.Lookup(b, k)
    ensures m == MergeSets(a, b)
  {
  }

  /** Adds every count of one dictionary to another. */
  method AddCounts<K(==)>(into: map<K, nat>, other: map<K, nat>) returns (m: map<K, nat>)
    ensures CountsAdded(into, other, m)
  {
    m := into;
    var todo := other.Keys;
    while todo != {}
      invariant todo <= other.Keys
      invariant m.Keys == into.Keys + (other.Keys - todo)
      invariant forall k | k in m ::
          m[k] == Splice.Count(into, k) + if k in todo then 0 else Splice.Count(other, k)
    {
      var k :| k in todo;
      m := m[k := Splice.Count(m, k) + other[k]];
      todo := todo - {k};
    }
  }
}
