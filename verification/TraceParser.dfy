/** The trace parser object: line data, merged trace indexes, and the searches. */
module TraceParser {
  import opened Common
  import opened Edges
  import opened BackTrace
  import opened CallerSearch
  import opened LineDump
  import opened SortedStrings
  import opened TraceGraph
  import opened TraceReports
  import Splice

  // ---------------------------------------------------------------------
  // From trace files to results
  // ---------------------------------------------------------------------

  /** A trace, with the time of its input. */
  datatype TraceFile = TraceFile(timestamp: int, lines: seq<Splice.Line>)

  ghost predicate ParsedAs(file: TraceFile, result: TraceResult) {
    && result.timestamp == file.timestamp
    && result.findings.Some?
    && Splice.WellSpliced(file.lines)
    && Splice.IndexesAgree(Splice.Emitted(file.lines), result.findings.value)
  }

  /** An input of the campaign; its number names its trace file. */
  datatype Input = Input(nid: nat, timestamp: int)

  /** The traces of those inputs that have one, in order; `at` tells which these are. */
  ghost predicate FoundAt(inputs: seq<Input>, traceDir: map<nat, seq<Splice.Line>>, files: seq<TraceFile>, at: seq<nat>) {
    && |at| == |files| && Increasing(at)
    && (forall k | 0 <= k < |at| ::
          && at[k] < |inputs| && inputs[at[k]].nid in traceDir
          && files[k] == TraceFile(inputs[at[k]].timestamp, traceDir[inputs[at[k]].nid]))
    && (forall i | 0 <= i < |inputs| && inputs[i].nid in traceDir :: i in at)
  }

  ghost predicate AllParsedAs(files: seq<TraceFile>, results: seq<TraceResult>) {
    |files| == |results| && forall k | 0 <= k < |files| :: ParsedAs(files[k], results[k])
  }

  /** The results are those of the traces found, in the order of the inputs. */
  ghost predicate ResultsOf(inputs: seq<Input>, traceDir: map<nat, seq<Splice.Line>>, results: seq<TraceResult>) {
    exists files, at :: FoundAt(inputs, traceDir, files, at) && AllParsedAs(files, results)
  }

  lemma FoundStep(
    inputs: seq<Input>, traceDir: map<nat, seq<Splice.Line>>, i: nat, files: seq<TraceFile>, at: seq<nat>)
    requires i < |inputs| && FoundAt(inputs[..i], traceDir, files, at)
    ensures inputs[i].nid !in traceDir ==> FoundAt(inputs[..i + 1], traceDir, files, at)
    ensures inputs[i].nid in traceDir ==>
              FoundAt(inputs[..i + 1], traceDir,
                      files + [TraceFile(inputs[i].timestamp, traceDir[inputs[i].nid])], at + [i])
  {
    assert forall j | 0 <= j < i :: inputs[..i][j] == inputs[..i + 1][j];
    assert (at + [i])[|at|] == i && forall j | j in at :: j in at + [i];
  }

  /** Splices every trace that exists; one that cannot be spliced stops the run, and so
      does an empty list of inputs, as a message afterwards names the last input. */
  method ParseTraceList(inputs: seq<Input>, traceDir: map<nat, seq<Splice.Line>>) returns (r: Outcome<seq<TraceResult>>)
    ensures r.Ok? <==> inputs != [] && forall i | 0 <= i < |inputs| && inputs[i].nid in traceDir ::
                         Splice.WellSpliced(traceDir[inputs[i].nid])
    ensures r.Ok? ==> ResultsOf(inputs, traceDir, r.value)
  {
    hide Splice.WellSpliced, FoundAt, ParsedAs;
    if inputs == [] {
      return Failed;
    }
    var files: seq<TraceFile> := [];
    ghost var at: seq<nat> := [];
    NoneFound(traceDir);
    for i := 0 to |inputs|
      invariant FoundAt(inputs[..i], traceDir, files, at)
    {
      FoundStep(inputs, traceDir, i, files, at);
      if inputs[i].nid in traceDir {
        files := files + [TraceFile(inputs[i].timestamp, traceDir[inputs[i].nid])];
        at := at + [i];
      }
    }
    assert inputs[..|inputs|] == inputs;
    FoundWellSpliced(inputs, traceDir, files, at);
    r := ParseFiles(files);
  }

  lemma NoneFound(traceDir: map<nat, seq<Splice.Line>>)
    ensures FoundAt([], traceDir, [], [])
  {
  }

  lemma FoundWellSpliced(inputs: seq<Input>, traceDir: map<nat, seq<Splice.Line>>, files: seq<TraceFile>, at: seq<nat>)
    requires FoundAt(inputs, traceDir, files, at)
    ensures (forall file | file in files :: Splice.WellSpliced(file.lines)) <==>
            forall i | 0 <= i < |inputs| && inputs[i].nid in traceDir :: Splice.WellSpliced(traceDir[inputs[i].nid])
  {
    hide Splice.WellSpliced;
    if forall file | file in files :: Splice.WellSpliced(file.lines) {
      forall i | 0 <= i < |inputs| && inputs[i].nid in traceDir
        ensures Splice.WellSpliced(traceDir[inputs[i].nid])
      {
        var k :| 0 <= k < |at| && at[k] == i;
        assert files[k] in files;
      }
    }
  }

  method ParseFiles(files: seq<TraceFile>) returns (r: Outcome<seq<TraceResult>>)
    ensures r.Ok? <==> forall file | file in files :: Splice.WellSpliced(file.lines)
    ensures r.Ok? ==> AllParsedAs(files, r.value)
  {
    hide Splice.WellSpliced, Splice.IndexesAgree;
    var results: seq<TraceResult> := [];
    for i := 0 to |files|
      invariant |results| == i
      invariant forall k | 0 <= k < i :: ParsedAs(files[k], results[k])
    {
      var parsed := Splice.ParseSpliceTrace(files[i].lines);
      if parsed.Failed? {
        return Failed;
      }
      results := results + [TraceResult(files[i].timestamp, Some(parsed.value))];
      assert ParsedAs(files[i], results[i]);
    }
    return Ok(results);
  }

  /** All parsed traces have sound graphs, so merging them keeps a parser sound. */
  lemma ParsedAreSound(inputs: seq<Input>, traceDir: map<nat, seq<Splice.Line>>, results: seq<TraceResult>)
    requires ResultsOf(inputs, traceDir, results)
    ensures AllSound(FindingsOf(results))
  {
    hide FoundAt, AllParsedAs, AllSound;
    var files, at :| FoundAt(inputs, traceDir, files, at) && AllParsedAs(files, results);
    ParsedFilesAreSound(files, results);
  }

  lemma {:induction false} ParsedFilesAreSound(files: seq<TraceFile>, results: seq<TraceResult>)
    requires AllParsedAs(files, results)
    ensures AllSound(FindingsOf(results))
  {
    hide GraphOk, ParsedAs;
    if results != [] {
      var n := |files| - 1;
      ParsedFilesAreSound(files[..n], results[..n]);
      assert ParsedAs(files[n], results[n]);
      ParsedIsSound(files[n], results[n]);
    }
  }

  lemma ParsedIsSound(file: TraceFile, result: TraceResult)
    requires ParsedAs(file, result)
    ensures result.findings.Some?
    ensures var f := result.findings.value; GraphOk(f.edges.Keys, f.callers, f.backEdges)
  {
    FindingsAreSound(file.lines, result.findings.value);
  }

  /** The levels of a search; below zero nothing is searched. */
  function Levels(levels: int): nat {
    if levels < 0 then 0 else levels
  }

  // ---------------------------------------------------------------------
  // The object
  // ---------------------------------------------------------------------

  /** A set of addresses that callers and callees of a search share. */
  class AddrSet {
    var elems: set<nat>

    constructor ()
      ensures elems == {}
    {
      elems := {};
    }
  }

  class TraceParser {
    var uniqueBbs: set<nat>
    var uniqueEdges: map<Edge, nat>
    var callers: map<nat, set<nat>>
    var globalBackEdges: map<Edge, set<Edge>>
    var seenEdges: set<Edge>
    var addr2lifu: map<nat, Location>
    var line2addr: map<string, seq<nat>>
    var func2addr: map<string, set<nat>>
    var smatchLinoMap: map<string, seq<string>>

    constructor ()
      ensures uniqueBbs == {} && uniqueEdges == map[] && callers == map[] && globalBackEdges == map[]
      ensures seenEdges == {} && addr2lifu == map[] && line2addr == map[] && func2addr == map[]
      ensures smatchLinoMap == map[]
      ensures Sound()
    {
      uniqueBbs, uniqueEdges, callers, globalBackEdges := {}, map[], map[], map[];
      seenEdges, addr2lifu, line2addr, func2addr := {}, map[], map[], map[];
      smatchLinoMap := map[];
    }

    function Merged(): Totals
      reads `uniqueBbs, `uniqueEdges, `callers, `globalBackEdges
    {
      Totals(uniqueBbs, uniqueEdges, callers, globalBackEdges)
    }

    ghost predicate Sound()
      reads `uniqueEdges, `callers, `globalBackEdges
    {
      GraphOk(uniqueEdges.Keys, callers, globalBackEdges)
    }

    function Graph(): CallGraph
      reads `callers, `addr2lifu, `func2addr
    {
      CallGraph(callers, addr2lifu, func2addr)
    }

    predicate HasLine(addr: nat)
      reads `addr2lifu
    {
      addr < KERNEL_BASE || addr in addr2lifu
    }

    function Addr2Line(addr: nat): string
      requires HasLine(addr)
      reads `addr2lifu
    {
      if addr < KERNEL_BASE then "0" else addr2lifu[addr].lino
    }

    function Addr2Func(addr: nat): (f: string)
      requires HasLine(addr)
      reads `callers, `addr2lifu, `func2addr
      ensures f == Graph().FuncOf(addr)
    {
      if addr < KERNEL_BASE then TRACE_EXIT else addr2lifu[addr].func
    }

    /** The address lies on a reported line. */
    predicate OnReportedLine(addr: nat)
      requires HasLine(addr)
      reads `addr2lifu, `smatchLinoMap
    {
      SeqLookup(smatchLinoMap, Addr2Line(addr)) != []
    }

    /** A fake source is on a reported line only if the reports name line 0. */
    lemma FakeSourceLine(src: nat)
      ensures HasLine(FakeExit(src))
      ensures OnReportedLine(FakeExit(src)) <==> "0" in smatchLinoMap && smatchLinoMap["0"] != []
    {
      FakeExitIsTraceExit(src);
    }

    ghost predicate LinesKnown()
      reads `uniqueEdges, `addr2lifu
    {
      forall e | e in uniqueEdges :: HasLine(e.src) && HasLine(e.dst)
    }

    /** The graph the back-trace search walks on. */
    ghost function Trail(): BackGraph
      requires LinesKnown()
      reads `uniqueEdges, `addr2lifu, `smatchLinoMap, `globalBackEdges
    {
      BackGraph(globalBackEdges,
                set e | e in uniqueEdges && (OnReportedLine(e.src) || OnReportedLine(e.dst)))
    }

    lemma TrailMeaning(edge: Edge)
      requires LinesKnown() && edge in uniqueEdges
      ensures edge in Trail().hits <==> OnReportedLine(edge.src) || OnReportedLine(edge.dst)
    {
    }

    lemma TrailKeys()
      requires Sound() && LinesKnown()
      ensures Trail().back.Keys == uniqueEdges.Keys && Trail().WellFormed()
    {
    }

    /** Line data for all recorded edges is enough for the caller search. */
    lemma LinesKnownResolve()
      requires Sound() && LinesKnown()
      requires forall a | a in addr2lifu :: addr2lifu[a].func in func2addr
      ensures Graph().Resolvable()
    {
      forall a, c | a in callers && c in callers[a] && c != EXIT_IP
        ensures c < KERNEL_BASE || c in addr2lifu
      {
        assert c in Splice.Lookup(callers, a);
        assert Edge(c, a) in uniqueEdges;
      }
    }

    function LineData(): LineDb
      reads `addr2lifu, `line2addr, `func2addr
    {
      LineDb(addr2lifu, line2addr, func2addr)
    }

    /** Reads the line-data dump into the three dictionaries. */
    method ParseAddr2Line(dump: seq<DumpLine>)
      modifies `addr2lifu, `line2addr, `func2addr
      ensures DumpRead(dump, old(LineData()), LineData())
    {
      hide LineDataRead, IsIndex, Latest, Says, DumpRead;
      var addr := 0;
      ghost var recs: seq<Record>, at: seq<nat> := [], [];
      NothingRead(LineData());
      NothingIndexed(dump);
      var i := 0;
      while i < |dump|
        invariant 0 <= i <= |dump|
        invariant Latest(dump, i, addr)
        invariant IsIndex(dump, i, recs, at)
        invariant LineDataRead(recs, old(LineData()), LineData())
      {
        LatestStep(dump, i, addr);
        if !dump[i].Unmatched? {
          if dump[i].At? {
            addr := dump[i].addr;
          }
          var loc := dump[i].loc;
          SaysLatest(dump, i, addr);
          IndexStep(dump, i, recs, at, Record(addr, loc));
          LineDataStep(recs, Record(addr, loc), old(LineData()), LineData());
          addr2lifu := addr2lifu[addr := loc];
          line2addr := line2addr[loc.lino := SeqLookup(line2addr, loc.lino) + [addr]];
          func2addr := Splice.AddTo(func2addr, loc.func, addr);
          recs, at := recs + [Record(addr, loc)], at + [i];
        } else {
          IndexSkip(dump, i, recs, at);
        }
        i := i + 1;
      }
      DumpIsRead(dump, recs, at, old(LineData()), LineData());
    }

    /** So the lookups of an address lead back to it. */
    lemma LookupsLeadBack(addr: nat)
      requires LineData().Listed() && addr >= KERNEL_BASE && HasLine(addr)
      ensures addr in SeqLookup(line2addr, Addr2Line(addr)) && addr in Splice.Lookup(func2addr, Addr2Func(addr))
    {
    }

    /** Merges one trace into the object and counts what is new. */
    method MergeFindings(f: Splice.Findings) returns (newBbs: nat, newEdges: nat)
      modifies `uniqueBbs, `uniqueEdges, `callers, `globalBackEdges
      ensures OneMore(old(Merged()), f, Merged())
      ensures |Merged().bbs| == |old(Merged()).bbs| + newBbs
      ensures |Merged().edges.Keys| == |old(Merged()).edges.Keys| + newEdges
    {
      hide MergeSets, CountsAdded;
      ghost var t := Merged();
      newBbs := |f.bbs - uniqueBbs|;
      newEdges := |f.edges.Keys - uniqueEdges.Keys|;
      uniqueBbs := uniqueBbs + f.bbs;
      callers := UpdateSets(callers, f.callers);
      uniqueEdges := AddCounts(uniqueEdges, f.edges);
      globalBackEdges := UpdateSets(globalBackEdges, f.backEdges);
      NewCoverage(t, f, Merged());
    }

    /** Merges one more trace and prints its row. */
    method ReportOne(
      timestamp: int, f: Splice.Findings, rows: seq<Row>, numBbs: int, numEdges: int,
      ghost t0: Totals, ghost timestamps: seq<int>, ghost fs: seq<Splice.Findings>)
      returns (rows': seq<Row>, numBbs': int, numEdges': int)
      requires Reported(t0, timestamps, fs, rows, Merged())
      requires numBbs == |Merged().bbs| - |t0.bbs| && numEdges == |Merged().edges.Keys| - |t0.edges.Keys|
      modifies `uniqueBbs, `uniqueEdges, `callers, `globalBackEdges
      ensures Reported(t0, timestamps + [timestamp], fs + [f], rows', Merged())
      ensures numBbs' == |Merged().bbs| - |t0.bbs| && numEdges' == |Merged().edges.Keys| - |t0.edges.Keys|
    {
      hide Reported, OneMore, Merged;
      ghost var t := Merged();
      var newBbs, newEdges := MergeFindings(f);
      numBbs' := numBbs + newBbs;
      numEdges' := numEdges + newEdges;
      var row := Row(timestamp, numBbs', numEdges');
      ReportLoopStep(t0, timestamps, fs, rows, t, f, Merged(), row);
      rows' := rows + [row];
    }

    /** Merges the traces that were found and reports the coverage after each. */
    method GenReports(results: seq<TraceResult>) returns (rows: seq<Row>)
      modifies `uniqueBbs, `uniqueEdges, `callers, `globalBackEdges
      ensures Reported(old(Merged()), TimestampsOf(results), FindingsOf(results), rows, Merged())
    {
      hide Reported, FindingsOf, TimestampsOf, Merged;
      ghost var t0 := Merged();
      NothingReported(t0);
      NothingPresent();
      rows := [];
      var numBbs, numEdges := 0, 0;
      for i := 0 to |results|
        invariant Reported(t0, TimestampsOf(results[..i]), FindingsOf(results[..i]), rows, Merged())
        invariant numBbs == |Merged().bbs| - |t0.bbs| && numEdges == |Merged().edges.Keys| - |t0.edges.Keys|
      {
        PresentStep(results, i);
        if results[i].findings.Some? {
          rows, numBbs, numEdges := ReportOne(
            results[i].timestamp, results[i].findings.value, rows, numBbs, numEdges,
            t0, TimestampsOf(results[..i]), FindingsOf(results[..i]));
        }
      }
      assert results[..|results|] == results;
    }

    /** Walks back from an edge until the start of a trace, an edge on a reported
        line, or the depth limit; `seenEdges` is shared by the whole search. */
    method CallsiteTraceEdge(edge: Edge, levels: int, level: int) returns (found: bool)
      requires Sound() && LinesKnown()
      requires edge == SENTINEL || edge in uniqueEdges
      modifies `seenEdges
      ensures TraceRun(Trail(), edge, levels - level, old(seenEdges), seenEdges, found)
      // a fresh search from a recorded edge never dead-ends
      ensures old(seenEdges) == {} ==> found
      decreases levels - level, 1
    {
      hide GraphOk, PriorsRun, IsOrder;
      if level > levels {
        return true;
      }
      if edge == SENTINEL {
        return true;
      }
      if edge in seenEdges {
        return false;
      }
      TrailMeaning(edge);
      seenEdges := seenEdges + {edge};
      if OnReportedLine(edge.src) || OnReportedLine(edge.dst) {
        return true;
      }
      ghost var before, order := seenEdges, [];
      found, order := TracePriorEdges(edge, levels, level);
      assert IsOrder(order, Trail().Priors(edge)) && PriorsRun(Trail(), order, levels - level, before, seenEdges, found);
      if old(seenEdges) == {} {
        FreshSearchNeverDeadEnds(uniqueEdges.Keys, callers, Trail(), edge, levels - level, seenEdges, found);
      }
    }

    /** The loop of the search over the edges seen right before `edge`, in any order. */
    method TracePriorEdges(edge: Edge, levels: int, level: int) returns (anyFound: bool, ghost order: seq<Edge>)
      requires Sound() && LinesKnown()
      requires edge in uniqueEdges && level <= levels
      modifies `seenEdges
      ensures IsOrder(order, Trail().Priors(edge))
      ensures PriorsRun(Trail(), order, levels - level, old(seenEdges), seenEdges, anyFound)
      decreases levels - level, 0
    {
      hide GraphOk, TraceRun, IsOrder;
      TrailKeys();
      anyFound, order := false, [];
      var priors := globalBackEdges[edge];
      var todo := priors;
      NoOrder<Edge>();
      assert priors - todo == {};
      while todo != {}
        invariant todo <= priors
        invariant IsOrder(order, priors - todo)
        invariant PriorsRun(Trail(), order, levels - level, old(seenEdges), seenEdges, anyFound)
        decreases todo
      {
        var prior :| prior in todo;
        ghost var mid, f := seenEdges, anyFound;
        var found := CallsiteTraceEdge(prior, levels, level + 1);
        assert levels - (level + 1) == levels - level - 1;
        PriorsRunSnoc(Trail(), order, prior, levels - level, old(seenEdges), mid, seenEdges, f, found);
        OrderSnoc(order, priors - todo, prior);
        assert priors - (todo - {prior}) == (priors - todo) + {prior};
        order := order + [prior];
        todo := todo - {prior};
        anyFound := anyFound || found;
      }
      assert priors - todo == priors;
    }

    lemma CallerEdge(src: nat, dst: nat)
      requires Sound()
      ensures src in Splice.Lookup(callers, dst) <==> Edge(src, dst) in uniqueEdges
      ensures SENTINEL !in uniqueEdges
    {
    }

    /** The recorded calls to an address. */
    function CallsTo(addr: nat): set<Edge>
      reads `callers
    {
      set src | src in Splice.Lookup(callers, addr) && src != 0 :: Edge(src, addr)
    }

    function CallsToAny(addrs: set<nat>): set<Edge>
      reads `callers
    {
      set addr, e | addr in addrs && e in CallsTo(addr) :: e
    }

    lemma CallsToOneMore(addrs: set<nat>, addr: nat)
      ensures CallsToAny(addrs + {addr}) == CallsToAny(addrs) + CallsTo(addr)
    {
      hide CallsTo;
    }

    /** The recorded calls to any address of a function. */
    function CallsInto(func: string): set<Edge>
      reads `callers, `addr2lifu, `func2addr
    {
      CallsToAny(Graph().AddrsOf(func))
    }

    lemma CallsRecorded(addr: nat)
      requires Sound()
      ensures CallsTo(addr) <= uniqueEdges.Keys
    {
      hide GraphOk;
      forall e | e in CallsTo(addr)
        ensures e in uniqueEdges
      {
        CallerEdge(e.src, addr);
      }
    }

    /** The calls that are searched from, in terms of the recorded edges. */
    lemma CallsIntoMeansRecorded(func: string, e: Edge)
      requires Sound()
      ensures e in CallsInto(func) <==> e in uniqueEdges && e.dst in Graph().AddrsOf(func) && e.src != 0
    {
      hide GraphOk;
      CallerEdge(e.src, e.dst);
      assert e in CallsTo(e.dst) <==> e.src in Splice.Lookup(callers, e.dst) && e.src != 0;
      assert forall a | e in CallsTo(a) :: a == e.dst;
    }

    /** Traces back from every recorded call to an address; `before`, `order` and `f`
        tell of the searches made already, from the calls `done` to other addresses. */
    method CallsiteTraceAddr(
      addr: nat, levels: int, ghost before: set<Edge>, ghost done: set<Edge>, ghost order: seq<Edge>, ghost f: bool)
      returns (ghost order': seq<Edge>, ghost f': bool)
      requires Sound() && LinesKnown()
      requires IsOrder(order, done) && forall e | e in done :: e.dst != addr
      requires PriorsRun(Trail(), order, Levels(levels), before, seenEdges, f)
      modifies `seenEdges
      ensures IsOrder(order', done + CallsTo(addr))
      ensures PriorsRun(Trail(), order', Levels(levels), before, seenEdges, f')
    {
      hide GraphOk, TraceRun, IsOrder, Trail, PriorsRun;
      order', f' := order, f;
      ghost var calls := CallsTo(addr);
      CallsRecorded(addr);
      var sources := Splice.Lookup(callers, addr);
      assert done + (calls - calls) == done;
      ghost var left := calls;
      while sources != {}
        invariant sources <= Splice.Lookup(callers, addr) && left <= calls
        invariant forall src | src in Splice.Lookup(callers, addr) && src != 0 :: src in sources <==> Edge(src, addr) in left
        invariant IsOrder(order', done + (calls - left))
        invariant PriorsRun(Trail(), order', Levels(levels), before, seenEdges, f')
        decreases sources
      {
        var src :| src in sources;
        if src != 0 {
          ghost var call, mid := Edge(src, addr), seenEdges;
          assert call in calls && call in left;
          var found := CallsiteTraceEdge(Edge(src, addr), levels, 1);
          CutAlike(Trail(), call, levels - 1, Levels(levels) - 1, mid, seenEdges, found);
          PriorsRunSnoc(Trail(), order', call, Levels(levels), before, mid, seenEdges, f', found);
          OrderSnoc(order', done + (calls - left), call);
          assert done + (calls - (left - {call})) == done + (calls - left) + {call};
          order', f', left := order' + [call], f' || found, left - {call};
        }
        sources := sources - {src};
      }
      assert left == {};
      assert done + (calls - left) == done + calls;
    }

    /** Traces back from every recorded call into a function. */
    method CallsiteTraceFunc(func: string, levels: int)
      requires Sound() && LinesKnown() && Graph().Knows(func)
      modifies `seenEdges
      // one search from each call into the function, in some order
      ensures SearchedInOrder(Trail(), CallsInto(func), Levels(levels), old(seenEdges), seenEdges)
      // so exactly what these searches reach is marked
      ensures SearchedFrom(Trail(), CallsInto(func), Levels(levels) - 1, old(seenEdges), seenEdges)
    {
      hide GraphOk, LinesKnown, IsOrder, Trail, PriorsRun, SearchedFrom;
      ghost var addrs, before := Graph().AddrsOf(func), seenEdges;
      ghost var order: seq<Edge>, f, done: set<Edge> := [], false, {};
      NoOrder<Edge>();
      NoSearches(Trail(), Levels(levels), seenEdges);
      var todo := Graph().AddrsOf(func);
      while todo != {}
        invariant todo <= addrs
        invariant done == CallsToAny(addrs - todo)
        invariant IsOrder(order, done) && PriorsRun(Trail(), order, Levels(levels), before, seenEdges, f)
        decreases todo
      {
        var addr :| addr in todo;
        order, f := CallsiteTraceAddr(addr, levels, before, done, order, f);
        CallsToOneMore(addrs - todo, addr);
        done := done + CallsTo(addr);
        assert addrs - (todo - {addr}) == (addrs - todo) + {addr};
        todo := todo - {addr};
      }
      assert addrs - todo == addrs;
      forall e | e in done
        ensures e in uniqueEdges
      {
        CallsRecorded(e.dst);
      }
      TrailKeys();
      SearchesMark(Trail(), order, done, Levels(levels), before, seenEdges, f);
    }

    /** The valid callers of any address of a function. */
    method CallersOf(func: string) returns (found: set<nat>)
      requires Graph().Knows(func)
      ensures found == Graph().Direct(func)
    {
      found := {};
      ghost var g := Graph();
      var addrs := if func == TRACE_EXIT then {EXIT_IP} else func2addr[func];
      var todo := addrs;
      while todo != {}
        invariant todo <= addrs == g.AddrsOf(func)
        invariant found == set a, c | a in addrs - todo && c in Splice.Lookup(g.callers, a) && c != EXIT_IP :: c
      {
        var addr :| addr in todo;
        var sources := Splice.Lookup(callers, addr);
        found := found + set c | c in sources && c != EXIT_IP;
        todo := todo - {addr};
      }
    }

    /** The functions of some callers of a function. */
    method FuncsOf(func: string, taken: set<nat>) returns (funcs: set<string>)
      requires Graph().Resolvable() && taken <= Graph().Direct(func)
      ensures funcs == Graph().Funcs(taken)
      ensures forall f | f in funcs :: Graph().Knows(f)
    {
      hide CallGraph.Direct, CallGraph.Resolvable, CallGraph.Knows;
      forall c | c in taken
        ensures HasLine(c) && Graph().Knows(Graph().FuncOf(c))
      {
        CallerResolved(Graph(), func, c);
      }
      funcs := set c | c in taken :: Addr2Func(c);
    }

    /** The direct callers of a function, in terms of the recorded edges. */
    lemma DirectMeansRecorded(func: string, c: nat)
      requires Sound()
      ensures c in Graph().Direct(func) <==>
              c != EXIT_IP && exists a :: a in Graph().AddrsOf(func) && Edge(c, a) in uniqueEdges
    {
      hide GraphOk;
      forall a
        ensures c in Splice.Lookup(callers, a) <==> Edge(c, a) in uniqueEdges
      {
        CallerEdge(c, a);
      }
    }

    /** Collects the direct and indirect callers of a function down to a depth;
        the seen set is shared by the whole search. None stands for a function
        without line data. */
    method CollectCallers(func: string, levels: int, level: int, seen: AddrSet) returns (result: Option<set<nat>>)
      requires Graph().Resolvable()
      modifies seen
      ensures result.None? <==> !Graph().Knows(func)
      ensures result.None? ==> seen.elems == old(seen.elems)
      ensures result.Some? ==>
                && seen.elems == Collected(Graph(), func, levels - level, old(seen.elems))
                && result.value == seen.elems - old(seen.elems)
      // with depth to spare, exactly the callers reachable off the seen set
      ensures result.Some? && |Closure(Graph(), old(seen.elems), func)| <= levels - level ==>
                result.value == Closure(Graph(), old(seen.elems), func)
      decreases levels - level, 1
    {
      hide CallGraph.Direct, CallGraph.Funcs, CallGraph.FuncOf, CallGraph.Resolvable, CollectedAll, Closure;
      if func != TRACE_EXIT && func !in func2addr {
        return None;
      }
      var found := CallersOf(func);
      found := found - seen.elems;
      ghost var before := seen.elems;
      seen.elems := seen.elems + found;
      assert seen.elems - before == found;
      var res := found;
      if found != {} && level < levels {
        var funcs := FuncsOf(func, found);
        var more := SearchOn(funcs, levels, level, seen);
        res := res + more;
        assert seen.elems - before == res;
      }
      CollectedIsBoundedAndComplete(Graph(), func, levels - level, before);
      return Some(res);
    }

    /** The loop of the search over the functions of the callers just found, in order. */
    method SearchOn(funcs: set<string>, levels: int, level: int, seen: AddrSet) returns (result: set<nat>)
      requires Graph().Resolvable() && level < levels
      requires forall f | f in funcs :: Graph().Knows(f)
      modifies seen
      ensures old(seen.elems) <= seen.elems && result == seen.elems - old(seen.elems)
      ensures seen.elems == CollectedAll(Graph(), Sorted(funcs), levels - level, old(seen.elems))
      decreases levels - level, 0
    {
      hide CallGraph.Direct, CallGraph.Resolvable, CallGraph.Knows, Collected, Sorted, Closure, AllWithin;
      result := {};
      var todo := funcs;
      while todo != {}
        invariant todo <= funcs
        invariant old(seen.elems) <= seen.elems && result == seen.elems - old(seen.elems)
        invariant CollectedAll(Graph(), Sorted(funcs), levels - level, old(seen.elems)) ==
                  CollectedAll(Graph(), Sorted(todo), levels - level, seen.elems)
        decreases todo
      {
        LeastExists(todo);
        var next :| next in todo && forall x | x in todo :: StrLeq(next, x);
        ghost var mid := seen.elems;
        SortedStep(todo, next);
        var more := CollectCallers(next, levels, level + 1, seen);
        assert levels - (level + 1) == levels - level - 1;
        CollectedIsBoundedAndComplete(Graph(), next, levels - level - 1, mid);
        result := result + more.value;
        todo := todo - {next};
      }
      SortedNothing();
    }
  }
}
