/** The caller search: the depth-limited walk over callers with a shared seen set,
    and what it finds. */
module CallerSearch {
  import opened Common
  import opened Edges
  import opened SortedStrings
  import Splice

  // ---------------------------------------------------------------------
  // The caller graph
  // ---------------------------------------------------------------------

  /** Where an address lies in the source. */
  datatype Location = Location(lino: string, func: string)

  const TRACE_EXIT := "trace_exit"

  /** The recorded callers of each address, with the line data of the kernel. */
  datatype CallGraph = CallGraph(
    callers: map<nat, set<nat>>,
    addr2lifu: map<nat, Location>,
    func2addr: map<string, set<nat>>)
  {
    /** The function of an address; low addresses are trace exits. */
    function FuncOf(addr: nat): string {
      if addr < KERNEL_BASE then TRACE_EXIT
      else if addr in addr2lifu then addr2lifu[addr].func
      else ""
    }

    function Funcs(addrs: set<nat>): set<string> {
      set a | a in addrs :: FuncOf(a)
    }

    function AddrsOf(func: string): set<nat> {
      if func == TRACE_EXIT then {EXIT_IP} else Splice.Lookup(func2addr, func)
    }

    predicate Knows(func: string) {
      func == TRACE_EXIT || func in func2addr
    }

    /** The callers of any address of the function, except the exit address. */
    function Direct(func: string): set<nat> {
      set a, c | a in AddrsOf(func) && c in Splice.Lookup(callers, a) && c != EXIT_IP :: c
    }

    function AllCallers(): set<nat> {
      set a, c | a in callers && c in callers[a] :: c
    }

    /** Every recorded caller has line data, and every function named in the line
        data has its addresses listed. */
    ghost predicate Resolvable() {
      && (forall a, c | a in callers && c in callers[a] && c != EXIT_IP :: c < KERNEL_BASE || c in addr2lifu)
      && (forall a | a in addr2lifu :: Knows(addr2lifu[a].func))
    }
  }

  /** A chain of callers outside `seen`: the first calls `func`, each next one
      calls the function of the one before. */
  ghost predicate CallChain(g: CallGraph, seen: set<nat>, func: string, p: seq<nat>) {
    && p != []
    && (forall i | 0 <= i < |p| :: p[i] !in seen)
    && p[0] in g.Direct(func)
    && (forall i | 0 <= i < |p| - 1 :: p[i + 1] in g.Direct(g.FuncOf(p[i])))
  }

  /** The fake source of an exit counts as an exit, whatever the line data says of it. */
  lemma FakeCallersAreExits(g: CallGraph, src: nat)
    ensures g.FuncOf(FakeExit(src)) == TRACE_EXIT && g.AddrsOf(g.FuncOf(FakeExit(src))) == {EXIT_IP}
  {
    FakeExitIsTraceExit(src);
  }

  lemma DirectAreCallers(g: CallGraph, func: string)
    ensures g.Direct(func) <= g.AllCallers()
  {
  }

  ghost predicate CallsWithin(
    g: CallGraph, seen: set<nat>, func: string, hops: int, c: nat)
  {
    exists p :: CallChain(g, seen, func, p) && p[|p| - 1] == c && |p| <= hops
  }

  ghost predicate Calls(g: CallGraph, seen: set<nat>, func: string, c: nat) {
    exists p :: CallChain(g, seen, func, p) && p[|p| - 1] == c
  }

  /** All direct and indirect callers of a function, found without entering `seen`. */
  ghost function Closure(
    g: CallGraph, seen: set<nat>, func: string): set<nat>
  {
    set c | c in g.AllCallers() && Calls(g, seen, func, c)
  }

  ghost predicate ClosedUnderCallers(g: CallGraph, func: string, s: set<nat>) {
    g.Direct(func) <= s && forall c | c in s :: g.Direct(g.FuncOf(c)) <= s
  }

  lemma CallChainCons(
    g: CallGraph, seen: set<nat>, seen': set<nat>, func: string, c: nat, p: seq<nat>)
    requires c in g.Direct(func) && c !in seen && seen <= seen'
    requires CallChain(g, seen', g.FuncOf(c), p)
    ensures CallChain(g, seen, func, [c] + p)
  {
    var q := [c] + p;
    forall i | 0 <= i < |q| - 1
      ensures q[i + 1] in g.Direct(g.FuncOf(q[i]))
    {
      if i > 0 {
        assert p[i] in g.Direct(g.FuncOf(p[i - 1]));
      }
    }
  }

  /** One more caller hop. */
  lemma CallsWithinCons(
    g: CallGraph, seen: set<nat>, seen': set<nat>, func: string,
    hops: int, via: nat, c: nat)
    requires via in g.Direct(func) && via !in seen && seen <= seen'
    requires CallsWithin(g, seen', g.FuncOf(via), hops, c)
    ensures CallsWithin(g, seen, func, hops + 1, c)
  {
    var p :| CallChain(g, seen', g.FuncOf(via), p) && p[|p| - 1] == c && |p| <= hops;
    CallChainCons(g, seen, seen', func, via, p);
    assert ([via] + p)[|p|] == c;
  }

  lemma DirectCallsWithin(g: CallGraph, seen: set<nat>, func: string, hops: int, c: nat)
    requires c in g.Direct(func) && c !in seen && hops >= 1
    ensures CallsWithin(g, seen, func, hops, c)
  {
    assert CallChain(g, seen, func, [c]);
  }

  /** A search region closed outside `seen` contains every chain that avoids `seen`. */
  lemma {:induction false} ChainStaysInside(
    g: CallGraph, before: set<nat>, after: set<nat>, func: string, p: seq<nat>)
    requires CallChain(g, before, func, p)
    requires g.Direct(func) <= after
    requires forall c | c in after - before :: g.Direct(g.FuncOf(c)) <= after
    ensures p[|p| - 1] in after - before
    decreases |p|
  {
    if |p| > 1 {
      var q := p[1..];
      assert forall i | 0 <= i < |q| :: q[i] == p[i + 1];
      assert q[0] in g.Direct(g.FuncOf(p[0]));
      assert CallChain(g, before, g.FuncOf(p[0]), q);
      ChainStaysInside(g, before, after, g.FuncOf(p[0]), q);
    }
  }

  /** Searching on from a caller stays within the closure and off the callers
      already taken. */
  lemma ClosureShrinks(
    g: CallGraph, seen: set<nat>, taken: set<nat>, func: string, via: nat,
    seen': set<nat>)
    requires taken == g.Direct(func) - seen && via in taken
    requires seen + taken <= seen'
    ensures Closure(g, seen', g.FuncOf(via)) <= Closure(g, seen, func) - taken
    ensures |Closure(g, seen', g.FuncOf(via))| < |Closure(g, seen, func)|
  {
    hide CallGraph.Direct, CallGraph.FuncOf;
    var small := Closure(g, seen', g.FuncOf(via));
    var big := Closure(g, seen, func);
    DirectAreCallers(g, func);
    forall c | c in small
      ensures c in big && c !in taken
    {
      var p :| CallChain(g, seen', g.FuncOf(via), p) && p[|p| - 1] == c;
      CallChainCons(g, seen, seen', func, via, p);
      assert ([via] + p)[|p|] == c;
    }
    assert via in big by {
      assert CallChain(g, seen, func, [via]);
    }
    SubsetCount(small + {via}, big);
  }

  lemma CallsAreRecorded(g: CallGraph, seen: set<nat>, func: string, c: nat)
    requires Calls(g, seen, func, c)
    ensures c in g.AllCallers() && c !in seen
  {
    hide CallGraph.Direct, CallGraph.AllCallers;
    var p :| CallChain(g, seen, func, p) && p[|p| - 1] == c;
    var last := if |p| == 1 then func else g.FuncOf(p[|p| - 2]);
    DirectAreCallers(g, last);
  }

  /** A caller of a caller is a caller. */
  lemma CallsStep(g: CallGraph, seen: set<nat>, func: string, c: nat, d: nat)
    requires Calls(g, seen, func, c) && d in g.Direct(g.FuncOf(c)) && d !in seen
    ensures Calls(g, seen, func, d)
  {
    hide CallGraph.Direct, CallGraph.FuncOf;
    var p :| CallChain(g, seen, func, p) && p[|p| - 1] == c;
    assert CallChain(g, seen, func, p + [d]);
    assert (p + [d])[|p|] == d;
  }

  /** What is seen and the closure together hold the direct callers and the
      callers of the functions in the closure. */
  lemma ClosureSaturates(g: CallGraph, seen: set<nat>, func: string)
    ensures g.Direct(func) <= seen + Closure(g, seen, func)
    ensures forall c | c in Closure(g, seen, func) :: g.Direct(g.FuncOf(c)) <= seen + Closure(g, seen, func)
  {
    hide CallGraph.Direct, CallGraph.FuncOf, CallGraph.AllCallers;
    forall c | c in g.Direct(func) && c !in seen
      ensures c in Closure(g, seen, func)
    {
      assert CallChain(g, seen, func, [c]);
      CallsAreRecorded(g, seen, func, c);
    }
    forall c, d | c in Closure(g, seen, func) && d in g.Direct(g.FuncOf(c)) && d !in seen
      ensures d in Closure(g, seen, func)
    {
      CallsStep(g, seen, func, c, d);
      CallsAreRecorded(g, seen, func, d);
    }
  }

  /** With nothing seen, the closure is the least set that holds the direct
      callers and the callers of the functions of its members. */
  lemma ClosureIsLeast(g: CallGraph, func: string)
    ensures ClosedUnderCallers(g, func, Closure(g, {}, func))
    ensures forall s | ClosedUnderCallers(g, func, s) :: Closure(g, {}, func) <= s
  {
    hide CallGraph.Direct, CallGraph.FuncOf, CallGraph.AllCallers;
    var closure := Closure(g, {}, func);
    ClosureSaturates(g, {}, func);
    forall s, c | ClosedUnderCallers(g, func, s) && c in closure
      ensures c in s
    {
      var p :| CallChain(g, {}, func, p) && p[|p| - 1] == c;
      ChainStaysInside(g, {}, s, func, p);
    }
  }

  // ---------------------------------------------------------------------
  // The search
  // ---------------------------------------------------------------------

  /** The seen set after searching the callers of `func` with `depth` levels to go. */
  ghost function Collected(g: CallGraph, func: string, depth: int, seen: set<nat>): set<nat>
    decreases if depth < 0 then 0 else depth, 1, 0
  {
    var found := g.Direct(func) - seen;
    if found == {} || depth <= 0 then seen + found
    else CollectedAll(g, Sorted(g.Funcs(found)), depth, seen + found)
  }

  /** The seen set after going on with each of some functions, in order. */
  ghost function CollectedAll(g: CallGraph, funcs: seq<string>, depth: int, seen: set<nat>): set<nat>
    requires depth > 0
    decreases depth, 0, |funcs|
  {
    if funcs == [] then seen
    else CollectedAll(g, funcs[1..], depth, Collected(g, funcs[0], depth - 1, seen))
  }

  // ---------------------------------------------------------------------
  // Steps of the caller search
  // ---------------------------------------------------------------------

  /** How many caller hops a search with `depth` levels to go can make: always one. */
  function HopLimit(depth: int): int {
    if depth >= 0 then depth + 1 else 1
  }

  /** Every caller the search added reaches the function within the limit. */
  ghost predicate AllWithin(g: CallGraph, seen: set<nat>, func: string, hops: int, s: set<nat>) {
    forall c | c in s :: CallsWithin(g, seen, func, hops, c)
  }

  /** After searching on from the functions `done` of the callers `taken`, these
      functions and those of all further callers have their callers in `now`. */
  ghost predicate Searched(g: CallGraph, before: set<nat>, taken: set<nat>, now: set<nat>, done: set<string>) {
    && (forall c | c in taken && g.FuncOf(c) in done :: g.Direct(g.FuncOf(c)) <= now)
    && (forall c | c in now - before - taken :: g.Direct(g.FuncOf(c)) <= now)
  }

  lemma CallerResolved(g: CallGraph, func: string, c: nat)
    requires g.Resolvable() && c in g.Direct(func)
    ensures c < KERNEL_BASE || c in g.addr2lifu
    ensures g.Knows(g.FuncOf(c))
  {
  }

  lemma DirectWithin(g: CallGraph, seen: set<nat>, func: string, hops: int)
    requires hops >= 1
    ensures AllWithin(g, seen, func, hops, g.Direct(func) - seen)
  {
    hide CallGraph.Direct;
    forall c | c in g.Direct(func) - seen
      ensures CallsWithin(g, seen, func, hops, c)
    {
      DirectCallsWithin(g, seen, func, hops, c);
    }
  }

  lemma FurtherWithin(
    g: CallGraph, seen: set<nat>, seen': set<nat>, func: string, via: nat, hops: int, more: set<nat>)
    requires via in g.Direct(func) && via !in seen && seen <= seen'
    requires AllWithin(g, seen', g.FuncOf(via), hops, more)
    ensures AllWithin(g, seen, func, hops + 1, more)
  {
    hide CallGraph.Direct, CallGraph.FuncOf;
    forall c | c in more
      ensures CallsWithin(g, seen, func, hops + 1, c)
    {
      CallsWithinCons(g, seen, seen', func, hops, via, c);
    }
  }

  lemma BothWithin(g: CallGraph, seen: set<nat>, func: string, hops: int, s: set<nat>, t: set<nat>)
    requires AllWithin(g, seen, func, hops, s) && AllWithin(g, seen, func, hops, t)
    ensures AllWithin(g, seen, func, hops, s + t)
  {
  }

  /** One recursive call that found its whole closure. */
  lemma SearchedStep(
    g: CallGraph, before: set<nat>, taken: set<nat>, mid: set<nat>, now: set<nat>, done: set<string>, next: string)
    requires Searched(g, before, taken, mid, done)
    requires now == mid + Closure(g, mid, next)
    ensures Searched(g, before, taken, now, done + {next})
  {
    hide CallGraph.Direct, CallGraph.FuncOf, Closure;
    ClosureSaturates(g, mid, next);
  }

  /** A search that followed every caller it added found the whole closure. */
  lemma SearchedIsClosure(g: CallGraph, before: set<nat>, taken: set<nat>, now: set<nat>, func: string, funcs: set<string>, hops: int)
    requires taken == g.Direct(func) - before && before + taken <= now
    requires forall c | c in taken :: g.FuncOf(c) in funcs
    requires Searched(g, before, taken, now, funcs)
    requires AllWithin(g, before, func, hops, now - before)
    ensures now - before == Closure(g, before, func)
  {
    hide CallGraph.Direct, CallGraph.FuncOf, CallGraph.AllCallers;
    forall c | c in now - before
      ensures c in Closure(g, before, func)
    {
      assert CallsWithin(g, before, func, hops, c);
      CallsAreRecorded(g, before, func, c);
    }
    forall c | c in Closure(g, before, func)
      ensures c in now - before
    {
      var p :| CallChain(g, before, func, p) && p[|p| - 1] == c;
      ChainStaysInside(g, before, now, func, p);
    }
  }

  /** A search that stops at its direct callers missed nothing if there are none,
      and cannot have had depth to spare otherwise. */
  lemma StoppedIsClosure(g: CallGraph, before: set<nat>, taken: set<nat>, func: string, depth: int)
    requires taken == g.Direct(func) - before
    requires taken == {} || depth <= 0
    requires |Closure(g, before, func)| <= depth
    ensures taken == Closure(g, before, func)
  {
    hide CallGraph.Direct, CallGraph.FuncOf, Closure;
    ClosureSaturates(g, before, func);
    SubsetCount(taken, Closure(g, before, func));
    assert taken == {};
    SearchedIsClosure(g, before, {}, before, func, {}, 1);
  }

  /** What the loop over the functions of the callers `taken` keeps: `done` of them
      have been searched, and the seen set is now `now`. */
  ghost predicate SearchLoop(
    g: CallGraph, before: set<nat>, taken: set<nat>, now: set<nat>, func: string, done: set<string>, depth: int)
  {
    && before + taken <= now
    && AllWithin(g, before, func, depth + 1, now - before)
    && (|Closure(g, before, func)| <= depth ==> Searched(g, before, taken, now, done))
  }

  lemma SearchLoopStart(g: CallGraph, before: set<nat>, taken: set<nat>, func: string, depth: int)
    requires depth >= 0 && taken == g.Direct(func) - before
    ensures SearchLoop(g, before, taken, before + taken, func, {}, depth)
  {
    hide CallGraph.Direct, CallGraph.FuncOf, Closure;
    DirectWithin(g, before, func, depth + 1);
    assert before + taken - before == taken;
  }

  /** One recursive call, on the function `next` of one of the callers. */
  lemma SearchLoopStep(
    g: CallGraph, before: set<nat>, taken: set<nat>, mid: set<nat>, now: set<nat>, func: string,
    done: set<string>, next: string, depth: int)
    requires SearchLoop(g, before, taken, mid, func, done, depth)
    requires taken == g.Direct(func) - before && next in g.Funcs(taken)
    requires mid <= now && AllWithin(g, mid, next, depth, now - mid)
    requires |Closure(g, mid, next)| <= depth - 1 ==> now - mid == Closure(g, mid, next)
    ensures SearchLoop(g, before, taken, now, func, done + {next}, depth)
  {
    hide CallGraph.Direct, CallGraph.FuncOf, Closure, AllWithin, Searched;
    var via :| via in taken && g.FuncOf(via) == next;
    FurtherWithin(g, before, mid, func, via, depth, now - mid);
    BothWithin(g, before, func, depth + 1, mid - before, now - mid);
    assert now - before == (mid - before) + (now - mid);
    if |Closure(g, before, func)| <= depth {
      ClosureShrinks(g, before, taken, func, via, mid);
      assert now == mid + (now - mid);
      SearchedStep(g, before, taken, mid, now, done, next);
    }
  }

  lemma SearchLoopEnd(
    g: CallGraph, before: set<nat>, taken: set<nat>, now: set<nat>, func: string, funcs: set<string>, depth: int)
    requires SearchLoop(g, before, taken, now, func, funcs, depth)
    requires taken == g.Direct(func) - before && funcs == g.Funcs(taken)
    ensures before <= now && AllWithin(g, before, func, depth + 1, now - before)
    ensures |Closure(g, before, func)| <= depth ==> now - before == Closure(g, before, func)
  {
    hide CallGraph.Direct, CallGraph.FuncOf, Closure, Searched;
    if |Closure(g, before, func)| <= depth {
      SearchedIsClosure(g, before, taken, now, func, funcs, depth + 1);
    }
  }

  // ---------------------------------------------------------------------
  // The main results
  // ---------------------------------------------------------------------

  /** The seen set only grows, every caller added reaches the function within the
      hop limit, and with depth to spare the search finds every caller that can be
      reached without entering what was seen before. */
  lemma {:induction false} CollectedIsBoundedAndComplete(g: CallGraph, func: string, depth: int, seen: set<nat>)
    ensures seen <= Collected(g, func, depth, seen)
    ensures AllWithin(g, seen, func, HopLimit(depth), Collected(g, func, depth, seen) - seen)
    ensures |Closure(g, seen, func)| <= depth ==>
              Collected(g, func, depth, seen) - seen == Closure(g, seen, func)
    decreases if depth < 0 then 0 else depth, 1, 0
  {
    hide CallGraph.Direct, CallGraph.Funcs, Closure, AllWithin, SearchLoop;
    var found := g.Direct(func) - seen;
    assert seen + found - seen == found;
    if found == {} || depth <= 0 {
      DirectWithin(g, seen, func, HopLimit(depth));
      if |Closure(g, seen, func)| <= depth {
        StoppedIsClosure(g, seen, found, func, depth);
      }
    } else {
      var funcs := Sorted(g.Funcs(found));
      SortedElements(g.Funcs(found));
      SearchLoopStart(g, seen, found, func, depth);
      SearchAll(g, seen, found, seen + found, func, {}, funcs, depth);
      assert {} + Elements(funcs) == g.Funcs(found);
      SearchLoopEnd(g, seen, found, Collected(g, func, depth, seen), func, g.Funcs(found), depth);
    }
  }

  lemma {:induction false} SearchAll(
    g: CallGraph, before: set<nat>, taken: set<nat>, mid: set<nat>, func: string, done: set<string>,
    funcs: seq<string>, depth: int)
    requires depth > 0 && taken == g.Direct(func) - before
    requires forall f | f in funcs :: f in g.Funcs(taken)
    requires SearchLoop(g, before, taken, mid, func, done, depth)
    ensures SearchLoop(g, before, taken, CollectedAll(g, funcs, depth, mid), func, done + Elements(funcs), depth)
    decreases depth, 0, |funcs|
  {
    hide CallGraph.Direct, CallGraph.Funcs, Closure, AllWithin, SearchLoop, Collected;
    if funcs == [] {
      assert done + Elements(funcs) == done;
    } else {
      var now := Collected(g, funcs[0], depth - 1, mid);
      CollectedIsBoundedAndComplete(g, funcs[0], depth - 1, mid);
      assert HopLimit(depth - 1) == depth;
      SearchLoopStep(g, before, taken, mid, now, func, done, funcs[0], depth);
      SearchAll(g, before, taken, now, func, done + {funcs[0]}, funcs[1..], depth);
      assert done + {funcs[0]} + Elements(funcs[1..]) == done + Elements(funcs) by {
        assert funcs == [funcs[0]] + funcs[1..];
      }
    }
  }

  /** A fresh search with depth to spare finds exactly the least set that holds the
      callers of the function and the callers of the functions of its members. */
  lemma FreshSearchFindsLeastSet(g: CallGraph, func: string, levels: int)
    requires |Closure(g, {}, func)| <= levels
    ensures ClosedUnderCallers(g, func, Collected(g, func, levels, {}))
    ensures forall s | ClosedUnderCallers(g, func, s) :: Collected(g, func, levels, {}) <= s
  {
    hide Collected, Closure, AllWithin, ClosedUnderCallers;
    CollectedIsBoundedAndComplete(g, func, levels, {});
    assert Collected(g, func, levels, {}) - {} == Collected(g, func, levels, {});
    ClosureIsLeast(g, func);
  }

  // ---------------------------------------------------------------------
  // Depth is not a hop count
  // ---------------------------------------------------------------------

  lemma {:induction false} CollectedAllGrows(g: CallGraph, funcs: seq<string>, depth: int, seen: set<nat>)
    requires depth > 0
    ensures seen <= CollectedAll(g, funcs, depth, seen)
    decreases |funcs|
  {
    hide Collected, Closure, AllWithin;
    if funcs != [] {
      CollectedIsBoundedAndComplete(g, funcs[0], depth - 1, seen);
      CollectedAllGrows(g, funcs[1..], depth, Collected(g, funcs[0], depth - 1, seen));
    }
  }

  lemma CollectedHoldsDirect(g: CallGraph, func: string, depth: int, seen: set<nat>)
    ensures g.Direct(func) <= Collected(g, func, depth, seen)
  {
    hide CallGraph.Direct, CallGraph.Funcs, CollectedAll;
    var found := g.Direct(func) - seen;
    if found != {} && depth > 0 {
      CollectedAllGrows(g, Sorted(g.Funcs(found)), depth, seen + found);
    }
  }

  lemma {:induction false} CollectedAllHoldsDirect(g: CallGraph, funcs: seq<string>, depth: int, seen: set<nat>, func: string)
    requires depth > 0 && func in funcs
    ensures g.Direct(func) <= CollectedAll(g, funcs, depth, seen)
    decreases |funcs|
  {
    hide CallGraph.Direct, Collected;
    var now := Collected(g, funcs[0], depth - 1, seen);
    if func == funcs[0] {
      CollectedHoldsDirect(g, func, depth - 1, seen);
      CollectedAllGrows(g, funcs[1..], depth, now);
    } else {
      CollectedAllHoldsDirect(g, funcs[1..], depth, now, func);
    }
  }

  /** A search with at most one level to go finds every caller within its hop limit,
      whatever was seen before. */
  lemma ShallowSearchIsComplete(g: CallGraph, func: string, depth: int, seen: set<nat>, c: nat)
    requires depth <= 1 && CallsWithin(g, seen, func, HopLimit(depth), c)
    ensures c in Collected(g, func, depth, seen)
  {
    hide CallGraph.Direct, CallGraph.FuncOf, CollectedAll;
    var p :| CallChain(g, seen, func, p) && p[|p| - 1] == c && |p| <= HopLimit(depth);
    if |p| == 1 {
      CollectedHoldsDirect(g, func, depth, seen);
    } else {
      var found := g.Direct(func) - seen;
      var next := g.FuncOf(p[0]);
      assert p[0] in found && p[0 + 1] in g.Direct(next);
      SortedElements(g.Funcs(found));
      assert next in g.Funcs(found);
      assert next in Elements(Sorted(g.Funcs(found)));
      CollectedAllHoldsDirect(g, Sorted(g.Funcs(found)), depth, seen + found, next);
    }
  }

  /** The functions of a graph with two ways from `F` to `C` and on to `E`: a short
      one over `B` and one over `A`, `AA`, ... of `d` functions. */
  function WayName(d: nat, i: nat): string {
    if i == 0 then "F"
    else if i <= d then seq(i, _ => 'A')
    else if i == d + 1 then "B"
    else if i == d + 2 then "C"
    else "E"
  }

  /** The place of a function on the two ways. */
  function WayIndex(d: nat, name: string): nat {
    if name == "F" then 0
    else if name == "B" then d + 1
    else if name == "C" then d + 2
    else if name == "E" then d + 3
    else |name|
  }

  /** Where an address of the graph is called from. */
  function WayCallers(k: nat, d: nat, a: nat): set<nat> {
    if a == k then {k + 1, k + d + 1}
    else if a < k + d then {a + 1}
    else if a <= k + d + 1 then {k + d + 2}
    else {k + d + 3}
  }

  function WayLocation(k: nat, d: nat, a: nat): Location
    requires k <= a
  {
    Location("1", WayName(d, a - k))
  }

  /** The graph, with one address for each function, from `k` on. */
  function TwoWays(k: nat, d: nat): CallGraph {
    CallGraph(
      map a: nat | k <= a < k + d + 3 :: WayCallers(k, d, a),
      map a: nat | k <= a < k + d + 4 :: WayLocation(k, d, a),
      map name | name in (set i: nat | i < d + 4 :: WayName(d, i)) :: {k + WayIndex(d, name)})
  }

  /** Room for the graph among the addresses that have line data. */
  predicate RoomForWays(k: nat, d: nat) {
    KERNEL_BASE <= k && (k + d + 3 < EXIT_IP || EXIT_IP < k)
  }

  lemma WayIndexOfName(d: nat, i: nat)
    requires i < d + 4
    ensures WayIndex(d, WayName(d, i)) == i && WayName(d, i) != TRACE_EXIT
  {
    if 0 < i <= d {
      assert WayName(d, i)[0] == 'A';
    }
  }

  lemma SingleDirect(g: CallGraph, func: string, addr: nat)
    requires g.AddrsOf(func) == {addr} && EXIT_IP !in Splice.Lookup(g.callers, addr)
    ensures g.Direct(func) == Splice.Lookup(g.callers, addr)
  {
  }

  lemma WayAddrs(k: nat, d: nat, i: nat)
    requires i < d + 4
    ensures TwoWays(k, d).AddrsOf(WayName(d, i)) == {k + i}
  {
    hide WayName, WayIndex;
    WayIndexOfName(d, i);
    assert WayName(d, i) in TwoWays(k, d).func2addr;
  }

  lemma WayDirect(k: nat, d: nat, i: nat)
    requires RoomForWays(k, d) && i < d + 3
    ensures TwoWays(k, d).Direct(WayName(d, i)) == WayCallers(k, d, k + i)
  {
    hide WayName, WayIndex, CallGraph.Direct, CallGraph.AddrsOf;
    WayAddrs(k, d, i);
    assert Splice.Lookup(TwoWays(k, d).callers, k + i) == WayCallers(k, d, k + i);
    SingleDirect(TwoWays(k, d), WayName(d, i), k + i);
  }

  lemma WayFunc(k: nat, d: nat, i: nat)
    requires RoomForWays(k, d) && i < d + 4
    ensures TwoWays(k, d).FuncOf(k + i) == WayName(d, i)
  {
  }

  lemma TwoWaysResolve(k: nat, d: nat)
    requires RoomForWays(k, d)
    ensures TwoWays(k, d).Resolvable()
  {
    hide WayName, WayIndex;
    var g := TwoWays(k, d);
    forall a, c | a in g.callers && c in g.callers[a]
      ensures c in g.addr2lifu
    {
      assert c in WayCallers(k, d, a);
    }
    forall a | a in g.addr2lifu
      ensures g.Knows(g.addr2lifu[a].func)
    {
      assert g.addr2lifu[a].func == WayName(d, a - k);
    }
  }

  lemma SortedSingle(a: string)
    ensures Sorted({a}) == [a]
  {
    StrLeqTotal(a, a);
    SortedStep({a}, a);
    assert {a} - {a} == {};
  }

  lemma SortedPair()
    ensures Sorted({"A", "B"}) == ["A", "B"]
  {
    StrLeqTotal("A", "A");
    assert StrLeq("A", "B");
    SortedStep({"A", "B"}, "A");
    assert {"A", "B"} - {"A"} == {"B"};
    SortedSingle("B");
  }

  lemma FuncsOfOne(g: CallGraph, a: nat)
    ensures g.Funcs({a}) == {g.FuncOf(a)}
  {
  }

  /** The long way ends with no depth left: it marks the caller of the last function
      of the way, and not that one's own caller. */
  lemma {:induction false} LongWayStops(k: nat, d: nat, i: nat, seen: set<nat>)
    requires RoomForWays(k, d) && 1 <= i <= d
    requires forall a | k + i < a <= k + d :: a !in seen
    requires k + d + 2 !in seen && k + d + 3 !in seen
    ensures k + d + 2 in Collected(TwoWays(k, d), WayName(d, i), d - i, seen)
    ensures k + d + 3 !in Collected(TwoWays(k, d), WayName(d, i), d - i, seen)
    decreases d - i
  {
    hide TwoWays, WayName, CallGraph.Direct, CallGraph.FuncOf, CallGraph.Funcs;
    var g, name := TwoWays(k, d), WayName(d, i);
    WayDirect(k, d, i);
    if i < d {
      var next, now := WayName(d, i + 1), seen + {k + i + 1};
      assert g.Direct(name) - seen == {k + i + 1};
      FuncsOfOne(g, k + i + 1);
      WayFunc(k, d, i + 1);
      assert k + (i + 1) == k + i + 1;
      SortedSingle(next);
      assert Collected(g, name, d - i, seen) == CollectedAll(g, [next], d - i, now);
      assert CollectedAll(g, [next], d - i, now) == Collected(g, next, d - (i + 1), now) by {
        assert [next][1..] == [];
      }
      LongWayStops(k, d, i + 1, now);
    } else {
      assert g.Direct(name) - seen == {k + d + 2};
    }
  }

  /** A search that starts fresh from `F` goes the long way first and so never
      reaches the caller at its end. */
  lemma FreshSearchStops(k: nat, d: nat)
    requires RoomForWays(k, d) && d >= 2
    ensures k + d + 3 !in Collected(TwoWays(k, d), "F", d, {})
  {
    hide TwoWays, CallGraph.Direct, CallGraph.FuncOf, CallGraph.Funcs;
    var g, two := TwoWays(k, d), {k + 1, k + d + 1};
    FirstFuncs(k, d);
    assert g.Direct("F") - {} == two && {} + two == two by {
      WayDirect(k, d, 0);
    }
    SortedPair();
    assert Collected(g, "F", d, {}) == CollectedAll(g, ["A", "B"], d, two);
    var over := Collected(g, "A", d - 1, two);
    assert k + d + 2 in over && k + d + 3 !in over by {
      LongWayStops(k, d, 1, two);
    }
    assert CollectedAll(g, ["A", "B"], d, two) == CollectedAll(g, ["B"], d, over) by {
      assert ["A", "B"][1..] == ["B"];
    }
    assert Collected(g, "B", d - 1, over) == over by {
      WayDirect(k, d, d + 1);
      assert g.Direct("B") - over == {};
    }
    assert CollectedAll(g, ["B"], d, over) == over by {
      assert ["B"][1..] == [];
    }
  }

  lemma FirstFuncs(k: nat, d: nat)
    requires RoomForWays(k, d) && d >= 1
    ensures WayName(d, 1) == "A"
    ensures TwoWays(k, d).Funcs({k + 1, k + d + 1}) == {"A", "B"}
  {
    hide TwoWays, CallGraph.FuncOf;
    WayFunc(k, d, 1);
    WayFunc(k, d, d + 1);
    assert k + (d + 1) == k + d + 1;
  }

  lemma ShortWay(k: nat, d: nat)
    requires RoomForWays(k, d) && d >= 2
    ensures CallsWithin(TwoWays(k, d), {}, "F", 3, k + d + 3)
  {
    hide TwoWays, CallGraph.Direct, CallGraph.FuncOf;
    var g, p := TwoWays(k, d), [k + d + 1, k + d + 2, k + d + 3];
    WayDirect(k, d, 0);
    WayDirect(k, d, d + 1);
    WayDirect(k, d, d + 2);
    WayFunc(k, d, d + 1);
    WayFunc(k, d, d + 2);
    assert k + (d + 1) == k + d + 1 && k + (d + 2) == k + d + 2;
    assert CallChain(g, {}, "F", p) && p[|p| - 1] == k + d + 3;
  }

  lemma CallsWithinMore(g: CallGraph, seen: set<nat>, func: string, hops: int, hops': int, c: nat)
    requires CallsWithin(g, seen, func, hops, c) && hops <= hops'
    ensures CallsWithin(g, seen, func, hops', c)
  {
  }

  /** From depth 2 on, a search with nothing seen can miss a caller that is three hops
      away: the way to it was first entered too deep. At the usual depth of 4, and at
      every depth below 2^32 - 4, all addresses of the graph are kernel addresses. */
  lemma DepthLimitMissesCaller(k: nat, d: nat)
    requires d >= 2 && RoomForWays(k, d)
    ensures var g, missed := TwoWays(k, d), k + d + 3;
      && g.Resolvable()
      && CallsWithin(g, {}, "F", 3, missed)
      && missed !in Collected(g, "F", d, {})
  {
    hide TwoWays, Collected, CallsWithin;
    TwoWaysResolve(k, d);
    ShortWay(k, d);
    FreshSearchStops(k, d);
  }

  /** A fresh search with `d` levels to go finds every caller within its hop limit. */
  ghost predicate FindsAllWithinLimit(d: int) {
    forall g: CallGraph, func, c | g.Resolvable() && CallsWithin(g, {}, func, HopLimit(d), c) ::
      c in Collected(g, func, d, {})
  }

  /** Exactly at which depths the search finds every caller within its hop limit, on
      every graph: those below 2. */
  lemma DepthIsHopLimitIff(d: int)
    ensures FindsAllWithinLimit(d) <==> d <= 1
  {
    hide Collected, CallsWithin, CallGraph.Resolvable, TwoWays;
    if d <= 1 {
      forall g: CallGraph, func, c | g.Resolvable() && CallsWithin(g, {}, func, HopLimit(d), c)
        ensures c in Collected(g, func, d, {})
      {
        ShallowSearchIsComplete(g, func, d, {}, c);
      }
    } else {
      var k := if KERNEL_BASE + d + 3 < EXIT_IP then KERNEL_BASE else EXIT_IP + 1;
      DepthLimitMissesCaller(k, d);
      var g := TwoWays(k, d);
      CallsWithinMore(g, {}, "F", 3, HopLimit(d), k + d + 3);
    }
  }
}
