/** The fast matcher's trace iterator, which splices exits by recursion, and its
    relation to the splicing loop of the trace parser. */
module FastTrace {
  import opened Common
  import opened Edges
  import Splice

  datatype Step = Item(edge: Edge) | End | Panic

  /** Number of leading jumps to the exit address. */
  function Exits(lines: seq<Edge>): (k: nat)
    ensures k <= |lines|
    ensures forall i | 0 <= i < k :: lines[i].dst == EXIT_IP
    ensures k < |lines| ==> lines[k].dst != EXIT_IP
  {
    if lines == [] || lines[0].dst != EXIT_IP then 0 else 1 + Exits(lines[1..])
  }

  /** Number of lines one call of the iterator consumes: a chain of exits and the
      line after it. */
  function Consumed(lines: seq<Edge>): (n: nat)
    requires lines != []
    ensures 1 <= n <= |lines|
  {
    if Exits(lines) < |lines| then Exits(lines) + 1 else |lines|
  }

  /** Every line but the first of the consumed ones starts at the exit address. */
  ghost predicate ChainHolds(lines: seq<Edge>)
    requires lines != []
  {
    forall i | 1 <= i < Consumed(lines) :: lines[i].src == EXIT_IP
  }

  /** The chain collapses to its first source and its last destination. */
  function Collapsed(lines: seq<Edge>): Edge
    requires lines != []
  {
    Edge(lines[0].src, lines[Consumed(lines) - 1].dst)
  }

  class TraceFileIter {
    var lines: seq<Edge>

    constructor (file: seq<Edge>)
      ensures lines == file
    {
      lines := file;
    }

    /** The next spliced edge. */
    method Next() returns (r: Step)
      modifies this
      ensures old(lines) == [] <==> r == End
      ensures old(lines) == [] ==> lines == []
      ensures old(lines) != [] ==> (r == Panic <==> !ChainHolds(old(lines)))
      ensures r.Item? ==>
                && r.edge == Collapsed(old(lines))
                && lines == old(lines)[Consumed(old(lines))..]
      decreases |lines|
    {
      if lines == [] {
        return End;
      }
      var src, dst := lines[0].src, lines[0].dst;
      lines := lines[1..];
      if dst == EXIT_IP {
        ghost var all, rest := old(lines), lines;
        var next := Next();
        match next {
          case Item(edge) =>
            assert rest[0] == all[1] && Consumed(all) == Consumed(rest) + 1;
            if edge.src == EXIT_IP {
              assert forall i | 2 <= i < Consumed(all) :: all[i] == rest[i - 1];
              return Item(Edge(src, edge.dst));
            } else {
              assert all[1].src != EXIT_IP;
              return Panic;
            }
          case Panic =>
            assert forall i | 1 <= i < Consumed(rest) :: rest[i] == all[i + 1];
            return Panic;
          case End =>
        }
      }
      return Item(Edge(src, dst));
    }
  }

  // ---------------------------------------------------------------------
  // The whole trace
  // ---------------------------------------------------------------------

  /** The edges the iterator yields until the end of the file. */
  ghost function Yielded(lines: seq<Edge>): Outcome<seq<Edge>> {
    if lines == [] then Ok([])
    else if !ChainHolds(lines) then Failed
    else
      match Yielded(lines[Consumed(lines)..])
      case Ok(rest) => Ok([Collapsed(lines)] + rest)
      case Failed => Failed
  }

  /** Every jump to the exit address but a last one is followed by a jump from it. */
  ghost predicate Chained(lines: seq<Edge>) {
    forall i | 0 <= i < |lines| - 1 :: ChainedAt(lines, i)
  }

  ghost predicate ChainedAt(lines: seq<Edge>, i: nat)
    requires i + 1 < |lines|
  {
    lines[i].dst == EXIT_IP ==> lines[i + 1].src == EXIT_IP
  }

  /** The iterator survives a trace exactly when it is chained. */
  lemma {:induction false} YieldsIffChained(lines: seq<Edge>)
    ensures Yielded(lines).Ok? <==> Chained(lines)
  {
    if lines != [] {
      var n := Consumed(lines);
      var rest := lines[n..];
      YieldsIffChained(rest);
      assert forall i | 0 <= i < n - 1 :: lines[i].dst == EXIT_IP;
      if Chained(lines) {
        forall i | 1 <= i < n
          ensures lines[i].src == EXIT_IP
        {
          assert ChainedAt(lines, i - 1);
        }
        forall i | 0 <= i < |rest| - 1
          ensures ChainedAt(rest, i)
        {
          assert ChainedAt(lines, n + i);
        }
      } else {
        var i :| 0 <= i < |lines| - 1 && !ChainedAt(lines, i);
        if i < n - 1 {
          assert lines[i + 1].src != EXIT_IP;
        } else {
          assert n - 1 < i;
          assert !ChainedAt(rest, i - n);
        }
      }
    }
  }

  // ---------------------------------------------------------------------
  // Agreement with the trace parser
  // ---------------------------------------------------------------------

  /** The same trace as the parser reads it: lines without a count count once. */
  function Lines(raw: seq<Edge>): (t: seq<Splice.Line>)
    ensures |t| == |raw| && forall i | 0 <= i < |t| :: t[i] == Splice.Line(raw[i], 1)
  {
    seq(|raw|, i requires 0 <= i < |raw| => Splice.Line(raw[i], 1))
  }

  /** The true edges of a list of hops. */
  function TrueEdges(hops: seq<Splice.Hop>): (s: seq<Edge>)
    ensures |s| == |hops| && forall i | 0 <= i < |s| :: s[i] == hops[i].edge
  {
    seq(|hops|, i requires 0 <= i < |hops| => hops[i].edge)
  }

  /** What the iterator yields beyond the parser's hops: an exit that ends the trace. */
  function Dangling(raw: seq<Edge>): seq<Edge> {
    if raw != [] && raw[|raw| - 1].dst == EXIT_IP then [raw[|raw| - 1]] else []
  }

  /** One call of the iterator on a trace the parser accepts. */
  lemma PairedStep(raw: seq<Edge>)
    requires raw != [] && Splice.WellSpliced(Lines(raw))
    ensures ChainHolds(raw)
    ensures raw[0].dst != EXIT_IP || |raw| == 1 ==> Consumed(raw) == 1 && Collapsed(raw) == raw[0]
    ensures raw[0].dst == EXIT_IP && |raw| > 1 ==>
              Consumed(raw) == 2 && Collapsed(raw) == Edge(raw[0].src, raw[1].dst) && raw[1].dst != EXIT_IP
  {
    if raw[0].dst == EXIT_IP && |raw| > 1 {
      assert Splice.PairedAt(Lines(raw), 0);
      assert Exits(raw[1..]) == 0;
    }
  }

  /** The true edges of a trace, one hop at a time. */
  lemma TrueEdgesStep(raw: seq<Edge>)
    requires raw != [] && (raw[0].dst == EXIT_IP ==> |raw| > 1)
    ensures
      var n := if raw[0].dst == EXIT_IP then 2 else 1;
      var e := if raw[0].dst == EXIT_IP then Edge(raw[0].src, raw[1].dst) else raw[0];
      TrueEdges(Splice.Hops(Lines(raw))) == [e] + TrueEdges(Splice.Hops(Lines(raw[n..])))
  {
    var n := if raw[0].dst == EXIT_IP then 2 else 1;
    assert Lines(raw)[n..] == Lines(raw[n..]);
  }

  /** The true edges of a trace and its dangling exit. */
  function HopEdges(raw: seq<Edge>): seq<Edge> {
    TrueEdges(Splice.Hops(Lines(raw))) + Dangling(raw)
  }

  lemma HopEdgesStep(raw: seq<Edge>)
    requires raw != [] && Splice.WellSpliced(Lines(raw))
    ensures HopEdges(raw) == [Collapsed(raw)] + HopEdges(raw[Consumed(raw)..])
  {
    PairedStep(raw);
    var rest := raw[Consumed(raw)..];
    if raw[0].dst == EXIT_IP && |raw| == 1 {
      assert TrueEdges(Splice.Hops(Lines(raw))) == [];
      assert HopEdges(rest) == [];
    } else {
      TrueEdgesStep(raw);
      assert Dangling(raw) == Dangling(rest);
    }
  }

  /** On every trace the parser accepts, the iterator yields the same hops with
      their true sources, then the exit that ends the trace, if any. */
  lemma {:induction false} IteratorYieldsHops(raw: seq<Edge>)
    requires Splice.WellSpliced(Lines(raw))
    ensures Yielded(raw) == Ok(TrueEdges(Splice.Hops(Lines(raw))) + Dangling(raw))
  {
    if raw == [] {
      assert HopEdges(raw) == [];
    } else {
      PairedStep(raw);
      var n := Consumed(raw);
      Splice.WellSplicedDrop(Lines(raw), n);
      assert Lines(raw)[n..] == Lines(raw[n..]);
      IteratorYieldsHops(raw[n..]);
      HopEdgesStep(raw);
      assert Yielded(raw[n..]) == Ok(HopEdges(raw[n..]));
    }
  }

  /** Every jump to the exit address is followed at once by a jump from it to
      some other address. */
  ghost predicate PairedExits(raw: seq<Edge>) {
    forall i | 0 <= i < |raw| && raw[i].dst == EXIT_IP ::
      i + 1 < |raw| && raw[i + 1].src == EXIT_IP && raw[i + 1].dst != EXIT_IP
  }

  /** The edge stream of the trace parser; Failed when its loop stops. */
  ghost function Parsed(t: seq<Splice.Line>): Outcome<seq<Splice.Line>> {
    if Splice.WellSpliced(t) then Ok(Splice.Emitted(t)) else Failed
  }

  /** The iterator yields the hops and the parser emits them with the source of
      each spliced one replaced by its fake address. */
  ghost predicate SameHops(raw: seq<Edge>, hops: seq<Splice.Hop>) {
    && Parsed(Lines(raw)) == Ok(Splice.EncodeAll(hops))
    && Yielded(raw) == Ok(TrueEdges(hops))
  }

  lemma PairedExitsMeaning(raw: seq<Edge>)
    ensures PairedExits(raw) <==> Splice.WellSpliced(Lines(raw)) && Dangling(raw) == []
  {
    var t := Lines(raw);
    if PairedExits(raw) {
      forall i | 0 <= i < |t| - 1
        ensures Splice.PairedAt(t, i)
      {
        assert t[i].edge == raw[i] && t[i + 1].edge == raw[i + 1];
      }
    } else if Dangling(raw) == [] {
      var i :| 0 <= i < |raw| && raw[i].dst == EXIT_IP &&
        !(i + 1 < |raw| && raw[i + 1].src == EXIT_IP && raw[i + 1].dst != EXIT_IP);
      assert !Splice.PairedAt(t, i);
    }
  }

  /** The two splicers both succeed and agree exactly on the traces where every
      exit is paired with a re-entry. */
  lemma SplicersAgreeIffPaired(raw: seq<Edge>)
    ensures PairedExits(raw) <==> exists hops :: SameHops(raw, hops)
    ensures PairedExits(raw) ==> SameHops(raw, Splice.Hops(Lines(raw)))
  {
    PairedExitsMeaning(raw);
    var hops := Splice.Hops(Lines(raw));
    if Splice.WellSpliced(Lines(raw)) {
      IteratorYieldsHops(raw);
      assert |Yielded(raw).value| == |hops| + |Dangling(raw)|;
      if Dangling(raw) == [] {
        assert TrueEdges(hops) + Dangling(raw) == TrueEdges(hops);
        assert SameHops(raw, hops);
      }
      forall other | SameHops(raw, other)
        ensures Dangling(raw) == []
      {
        assert |Splice.EncodeAll(other)| == |Splice.EncodeAll(hops)|;
      }
    }
  }

  lemma {:induction false} ExitsOfChain(raw: seq<Edge>, k: nat)
    requires k < |raw| && raw[k].dst != EXIT_IP
    requires forall i | 0 <= i < k :: raw[i].dst == EXIT_IP
    ensures Exits(raw) == k
  {
    if k > 0 {
      ExitsOfChain(raw[1..], k - 1);
    }
  }

  /** A jump to the exit address, one or more jumps from it to itself, and a jump back. */
  ghost predicate LongExitChain(chain: seq<Edge>) {
    && |chain| >= 3
    && (forall i | 0 <= i < |chain| - 1 :: chain[i].dst == EXIT_IP)
    && (forall i | 0 < i < |chain| :: chain[i].src == EXIT_IP)
    && chain[|chain| - 1].dst != EXIT_IP
  }

  lemma LongExitChainStopsParser(chain: seq<Edge>, tail: seq<Edge>)
    requires LongExitChain(chain)
    ensures !Splice.WellSpliced(Lines(chain + tail))
  {
    var raw := chain + tail;
    assert raw[0] == chain[0] && raw[1] == chain[1];
    assert !Splice.PairedAt(Lines(raw), 0);
  }

  lemma LongExitChainIsOneEdge(chain: seq<Edge>, tail: seq<Edge>)
    requires LongExitChain(chain) && Yielded(tail).Ok?
    ensures var all := Yielded(chain + tail);
      all.Ok? && all.value == [Edge(chain[0].src, chain[|chain| - 1].dst)] + Yielded(tail).value
  {
    var raw, n := chain + tail, |chain|;
    assert forall i | 0 <= i < n :: raw[i] == chain[i];
    ExitsOfChain(raw, n - 1);
    assert Consumed(raw) == n && raw[n..] == tail;
  }

  /** A longer chain of exits, on which the parser stops, is still one edge for
      the iterator. */
  lemma LongExitChainsCollapse(chain: seq<Edge>, tail: seq<Edge>)
    requires LongExitChain(chain)
    ensures !Splice.WellSpliced(Lines(chain + tail))
    ensures Yielded(tail).Ok? ==>
              var all := Yielded(chain + tail);
              all.Ok? && all.value == [Edge(chain[0].src, chain[|chain| - 1].dst)] + Yielded(tail).value
  {
    hide Yielded, Splice.WellSpliced, Lines;
    LongExitChainStopsParser(chain, tail);
    if Yielded(tail).Ok? {
      LongExitChainIsOneEdge(chain, tail);
    }
  }
}
