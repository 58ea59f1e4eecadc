/** The line-data dump: what its lines say of each address, by position, and what the
    dictionaries hold after reading it. */
module LineDump {
  import opened Common
  import opened CallerSearch
  import Splice

  // ---------------------------------------------------------------------
  // What a dump says
  // ---------------------------------------------------------------------

  /** A line of the line-data dump: an address with its function and source line,
      or one more function inlined at the address before, or something else. */
  datatype DumpLine = At(addr: nat, loc: Location) | InlinedBy(loc: Location) | Unmatched

  /** What one line says of an address. */
  datatype Record = Record(addr: nat, loc: Location)

  /** The last address line before line `n` is line `k`, for address `a`. */
  ghost predicate LastAt(dump: seq<DumpLine>, n: nat, a: nat, k: nat) {
    k < n <= |dump| && dump[k].At? && dump[k].addr == a && forall j | k < j < n :: !dump[j].At?
  }

  /** `a` is the address of the last address line before line `n`, or 0 before any. */
  ghost predicate Latest(dump: seq<DumpLine>, n: nat, a: nat) {
    && n <= |dump|
    && ((exists k: nat :: LastAt(dump, n, a, k)) || (a == 0 && forall k | 0 <= k < n :: !dump[k].At?))
  }

  /** Line `i` names a function and a source line, for the latest address. */
  ghost predicate Says(dump: seq<DumpLine>, i: nat, r: Record) {
    && i < |dump| && (dump[i].At? || dump[i].InlinedBy?)
    && dump[i].loc == r.loc && Latest(dump, i + 1, r.addr)
  }

  ghost predicate SaysLast(dump: seq<DumpLine>, i: nat, r: Record) {
    Says(dump, i, r) && forall j: nat, q | Says(dump, j, q) && q.addr == r.addr :: j <= i
  }

  ghost predicate Mentions(dump: seq<DumpLine>, a: nat) {
    exists i: nat, r :: Says(dump, i, r) && r.addr == a
  }

  ghost predicate MentionsIn(dump: seq<DumpLine>, func: string, a: nat) {
    exists i: nat, r :: Says(dump, i, r) && r.addr == a && r.loc.func == func
  }

  /** Lines `at` are those for source line `lino`, in order; `addrs` are their addresses. */
  ghost predicate ListedAt(dump: seq<DumpLine>, lino: string, addrs: seq<nat>, at: seq<nat>, recs: seq<Record>) {
    && Increasing(at) && |at| == |recs| == |addrs|
    && (forall k | 0 <= k < |at| :: Says(dump, at[k], recs[k]) && recs[k].loc.lino == lino && recs[k].addr == addrs[k])
    && (forall i: nat, r | Says(dump, i, r) && r.loc.lino == lino :: i in at)
  }

  /** The addresses of the lines for a source line, in dump order. */
  ghost predicate ListsInOrder(dump: seq<DumpLine>, lino: string, addrs: seq<nat>) {
    exists at, recs :: ListedAt(dump, lino, addrs, at, recs)
  }

  function SeqLookup<K, V>(m: map<K, seq<V>>, k: K): seq<V> {
    if k in m then m[k] else []
  }

  /** The three dictionaries of the line data. */
  datatype LineDb = LineDb(lifu: map<nat, Location>, lines: map<string, seq<nat>>, funcs: map<string, set<nat>>)
  {
    /** Every address is listed under its source line and under its function. */
    ghost predicate Listed() {
      forall a | a in lifu :: a in SeqLookup(lines, lifu[a].lino) && a in Splice.Lookup(funcs, lifu[a].func)
    }
  }

  /** Each address has the location of the last line for it; others are untouched. */
  ghost predicate LocationsOfDump(dump: seq<DumpLine>, db0: LineDb, db: LineDb) {
    && (forall a: nat :: a in db.lifu <==> a in db0.lifu || Mentions(dump, a))
    && (forall i: nat, r | SaysLast(dump, i, r) && r.addr in db.lifu :: db.lifu[r.addr] == r.loc)
    && (forall a | a in db.lifu && !Mentions(dump, a) && a in db0.lifu :: db.lifu[a] == db0.lifu[a])
  }

  /** Each function gains exactly the addresses of the lines that name it. */
  ghost predicate FuncsOfDump(dump: seq<DumpLine>, db0: LineDb, db: LineDb) {
    && (forall f, a: nat :: a in Splice.Lookup(db.funcs, f) <==> a in Splice.Lookup(db0.funcs, f) || MentionsIn(dump, f, a))
    && (forall f :: f in db.funcs <==> f in db0.funcs || exists a: nat :: MentionsIn(dump, f, a))
  }

  /** Each source line gains the addresses of the lines that name it, in dump order. */
  ghost predicate LinesOfDump(dump: seq<DumpLine>, db0: LineDb, db: LineDb) {
    forall l :: LineOfDump(dump, l, SeqLookup(db0.lines, l), SeqLookup(db.lines, l))
  }

  ghost predicate LineOfDump(dump: seq<DumpLine>, lino: string, before: seq<nat>, after: seq<nat>) {
    exists more :: after == before + more && ListsInOrder(dump, lino, more)
  }

  /** `db` is `db0` after reading the dump. */
  ghost predicate DumpRead(dump: seq<DumpLine>, db0: LineDb, db: LineDb) {
    LocationsOfDump(dump, db0, db) && FuncsOfDump(dump, db0, db) && LinesOfDump(dump, db0, db)
  }

  // ---------------------------------------------------------------------
  // Reading record by record
  // ---------------------------------------------------------------------

  function FuncAddrs(recs: seq<Record>, func: string): set<nat> {
    set r | r in recs && r.loc.func == func :: r.addr
  }

  /** The addresses listed for a source line, in dump order. */
  function LineAddrs(recs: seq<Record>, lino: string): seq<nat> {
    if recs == [] then []
    else
      var r := recs[|recs| - 1];
      LineAddrs(recs[..|recs| - 1], lino) + if r.loc.lino == lino then [r.addr] else []
  }

  function RecordedAddrs(recs: seq<Record>): set<nat> {
    set r | r in recs :: r.addr
  }

  /** The last entry for an address: its outermost function. */
  function LastLocation(recs: seq<Record>, addr: nat): Location
    requires addr in RecordedAddrs(recs)
  {
    var r := recs[|recs| - 1];
    if r.addr == addr then r.loc
    else
      assert forall x | x in recs && x != r :: x in recs[..|recs| - 1];
      LastLocation(recs[..|recs| - 1], addr)
  }

  ghost predicate LocationsRead(recs: seq<Record>, db0: LineDb, db: LineDb) {
    && db.lifu.Keys == db0.lifu.Keys + RecordedAddrs(recs)
    && (forall a | a in db.lifu ::
          db.lifu[a] == if a in RecordedAddrs(recs) then LastLocation(recs, a) else db0.lifu[a])
  }

  ghost predicate LinesRead(recs: seq<Record>, db0: LineDb, db: LineDb) {
    forall l :: SeqLookup(db.lines, l) == SeqLookup(db0.lines, l) + LineAddrs(recs, l)
  }

  ghost predicate FuncsRead(recs: seq<Record>, db0: LineDb, db: LineDb) {
    forall f ::
      && (f in db.funcs <==> f in db0.funcs || FuncAddrs(recs, f) != {})
      && Splice.Lookup(db.funcs, f) == Splice.Lookup(db0.funcs, f) + FuncAddrs(recs, f)
  }

  /** `db` is `db0` after reading the entries `recs`. */
  ghost predicate LineDataRead(recs: seq<Record>, db0: LineDb, db: LineDb) {
    LocationsRead(recs, db0, db) && LinesRead(recs, db0, db) && FuncsRead(recs, db0, db)
  }

  function AddRecord(db: LineDb, r: Record): LineDb {
    LineDb(
      db.lifu[r.addr := r.loc],
      db.lines[r.loc.lino := SeqLookup(db.lines, r.loc.lino) + [r.addr]],
      Splice.AddTo(db.funcs, r.loc.func, r.addr))
  }

  lemma LocationsStep(recs: seq<Record>, r: Record, db0: LineDb, db: LineDb)
    requires LocationsRead(recs, db0, db)
    ensures LocationsRead(recs + [r], db0, AddRecord(db, r))
  {
    hide RecordedAddrs;
    RecordedAddrsSnoc(recs, r);
    LastLocationSnoc(recs, r);
  }

  lemma RecordedAddrsSnoc(recs: seq<Record>, r: Record)
    ensures RecordedAddrs(recs + [r]) == RecordedAddrs(recs) + {r.addr}
  {
    assert forall x :: x in recs + [r] <==> x in recs || x == r;
  }

  lemma LastLocationSnoc(recs: seq<Record>, r: Record)
    ensures r.addr in RecordedAddrs(recs + [r]) && LastLocation(recs + [r], r.addr) == r.loc
    ensures forall a | a in RecordedAddrs(recs) && a != r.addr ::
              a in RecordedAddrs(recs + [r]) && LastLocation(recs + [r], a) == LastLocation(recs, a)
  {
    hide RecordedAddrs;
    RecordedAddrsSnoc(recs, r);
    assert (recs + [r])[..|recs|] == recs;
  }

  lemma LinesStep(recs: seq<Record>, r: Record, db0: LineDb, db: LineDb)
    requires LinesRead(recs, db0, db)
    ensures LinesRead(recs + [r], db0, AddRecord(db, r))
  {
    hide LineAddrs;
    var recs', db' := recs + [r], AddRecord(db, r);
    forall l
      ensures SeqLookup(db'.lines, l) == SeqLookup(db0.lines, l) + LineAddrs(recs', l)
    {
      LineAddrsSnoc(recs, r, l);
      assert SeqLookup(db.lines, l) == SeqLookup(db0.lines, l) + LineAddrs(recs, l);
    }
  }

  lemma LineAddrsSnoc(recs: seq<Record>, r: Record, lino: string)
    ensures LineAddrs(recs + [r], lino) == LineAddrs(recs, lino) + if r.loc.lino == lino then [r.addr] else []
  {
    assert (recs + [r])[..|recs|] == recs;
  }

  lemma FuncsStep(recs: seq<Record>, r: Record, db0: LineDb, db: LineDb)
    requires FuncsRead(recs, db0, db)
    ensures FuncsRead(recs + [r], db0, AddRecord(db, r))
  {
    hide FuncAddrs;
    var recs', db' := recs + [r], AddRecord(db, r);
    forall f
      ensures (f in db'.funcs <==> f in db0.funcs || FuncAddrs(recs', f) != {})
      ensures Splice.Lookup(db'.funcs, f) == Splice.Lookup(db0.funcs, f) + FuncAddrs(recs', f)
    {
      FuncAddrsSnoc(recs, r, f);
      assert f in db.funcs <==> f in db0.funcs || FuncAddrs(recs, f) != {};
    }
  }

  lemma FuncAddrsSnoc(recs: seq<Record>, r: Record, func: string)
    ensures FuncAddrs(recs + [r], func) == FuncAddrs(recs, func) + if func == r.loc.func then {r.addr} else {}
  {
    assert forall x :: x in recs + [r] <==> x in recs || x == r;
  }

  lemma LineDataStep(recs: seq<Record>, r: Record, db0: LineDb, db: LineDb)
    requires LineDataRead(recs, db0, db)
    ensures LineDataRead(recs + [r], db0, AddRecord(db, r))
  {
    LocationsStep(recs, r, db0, db);
    LinesStep(recs, r, db0, db);
    FuncsStep(recs, r, db0, db);
  }

  lemma NothingRead(db: LineDb)
    ensures LineDataRead([], db, db)
  {
  }

  // ---------------------------------------------------------------------
  // From records to positions in the dump
  // ---------------------------------------------------------------------

  /** The records of the first `n` lines, each with its position. */
  ghost predicate IsIndex(dump: seq<DumpLine>, n: nat, recs: seq<Record>, at: seq<nat>) {
    && n <= |dump| && |at| == |recs| && Increasing(at)
    && (forall k | 0 <= k < |at| :: at[k] < n && Says(dump, at[k], recs[k]))
    && (forall i: nat, r | Says(dump, i, r) && i < n :: i in at)
  }

  lemma NothingIndexed(dump: seq<DumpLine>)
    ensures IsIndex(dump, 0, [], []) && Latest(dump, 0, 0)
  {
  }

  lemma LatestUnique(dump: seq<DumpLine>, n: nat, a: nat, b: nat)
    requires Latest(dump, n, a) && Latest(dump, n, b)
    ensures a == b
  {
    if k: nat :| LastAt(dump, n, a, k) {
      assert dump[k].At?;
      var j: nat :| LastAt(dump, n, b, j);
      assert j == k;
    }
  }

  /** A line says one thing only. */
  lemma SaysOnce(dump: seq<DumpLine>, i: nat, r: Record, q: Record)
    requires Says(dump, i, r) && Says(dump, i, q)
    ensures r == q
  {
    hide Latest;
    LatestUnique(dump, i + 1, r.addr, q.addr);
  }

  lemma LatestStep(dump: seq<DumpLine>, n: nat, a: nat)
    requires n < |dump| && Latest(dump, n, a)
    ensures Latest(dump, n + 1, if dump[n].At? then dump[n].addr else a)
  {
    if dump[n].At? {
      assert LastAt(dump, n + 1, dump[n].addr, n);
    } else if k: nat :| LastAt(dump, n, a, k) {
      assert LastAt(dump, n + 1, a, k);
    }
  }

  lemma SaysLatest(dump: seq<DumpLine>, i: nat, a: nat)
    requires i < |dump| && !dump[i].Unmatched? && Latest(dump, i + 1, a)
    ensures Says(dump, i, Record(a, dump[i].loc))
  {
  }

  lemma IndexStep(dump: seq<DumpLine>, n: nat, recs: seq<Record>, at: seq<nat>, r: Record)
    requires Says(dump, n, r) && IsIndex(dump, n, recs, at)
    ensures IsIndex(dump, n + 1, recs + [r], at + [n])
  {
    assert n < |dump|;
    hide Says;
    forall i: nat, q | Says(dump, i, q) && i < n + 1
      ensures i in at + [n]
    {
      if i < n {
        assert i in at;
      }
    }
  }

  lemma IndexSkip(dump: seq<DumpLine>, n: nat, recs: seq<Record>, at: seq<nat>)
    requires n < |dump| && dump[n].Unmatched? && IsIndex(dump, n, recs, at)
    ensures IsIndex(dump, n + 1, recs, at)
  {
    assert forall r :: !Says(dump, n, r);
    hide Says;
  }

  lemma RecordOf(dump: seq<DumpLine>, recs: seq<Record>, at: seq<nat>, i: nat, r: Record) returns (k: nat)
    requires IsIndex(dump, |dump|, recs, at) && Says(dump, i, r)
    ensures k < |recs| == |at| && at[k] == i && recs[k] == r
  {
    assert i < |dump|;
    hide Says;
    assert i in at;
    k :| k < |at| && at[k] == i;
    SaysOnce(dump, i, r, recs[k]);
  }

  lemma {:induction false} LastLocationAt(recs: seq<Record>, k: nat)
    requires k < |recs| && forall j | k < j < |recs| :: recs[j].addr != recs[k].addr
    ensures recs[k].addr in RecordedAddrs(recs) && LastLocation(recs, recs[k].addr) == recs[k].loc
  {
    assert recs[k] in recs;
    if k < |recs| - 1 {
      LastLocationAt(recs[..|recs| - 1], k);
    }
  }

  lemma MentionsRecorded(dump: seq<DumpLine>, recs: seq<Record>, at: seq<nat>, a: nat)
    requires IsIndex(dump, |dump|, recs, at)
    ensures a in RecordedAddrs(recs) <==> Mentions(dump, a)
  {
    hide Says;
    if Mentions(dump, a) {
      var i: nat, r :| Says(dump, i, r) && r.addr == a;
      var k := RecordOf(dump, recs, at, i, r);
      assert recs[k] in recs;
    }
    if a in RecordedAddrs(recs) {
      var k :| 0 <= k < |recs| && recs[k].addr == a;
      assert Says(dump, at[k], recs[k]);
    }
  }

  lemma MentionsFunc(dump: seq<DumpLine>, recs: seq<Record>, at: seq<nat>, f: string, a: nat)
    requires IsIndex(dump, |dump|, recs, at)
    ensures a in FuncAddrs(recs, f) <==> MentionsIn(dump, f, a)
  {
    hide Says;
    if MentionsIn(dump, f, a) {
      var i: nat, r :| Says(dump, i, r) && r.addr == a && r.loc.func == f;
      var k := RecordOf(dump, recs, at, i, r);
      assert recs[k] in recs;
    }
    if a in FuncAddrs(recs, f) {
      var k :| 0 <= k < |recs| && recs[k].loc.func == f && recs[k].addr == a;
      assert Says(dump, at[k], recs[k]);
    }
  }

  lemma LastIsLast(dump: seq<DumpLine>, recs: seq<Record>, at: seq<nat>, i: nat, r: Record)
    requires IsIndex(dump, |dump|, recs, at) && SaysLast(dump, i, r)
    ensures r.addr in RecordedAddrs(recs) && LastLocation(recs, r.addr) == r.loc
  {
    hide Says;
    var k := RecordOf(dump, recs, at, i, r);
    forall j | k < j < |recs|
      ensures recs[j].addr != r.addr
    {
      assert Says(dump, at[j], recs[j]) && at[j] > i;
    }
    LastLocationAt(recs, k);
  }

  /** The positions of the records for one source line among the first `m`. */
  ghost predicate Selects(recs: seq<Record>, m: nat, l: string, sel: seq<nat>, addrs: seq<nat>) {
    && m <= |recs| && |sel| == |addrs| && Increasing(sel)
    && (forall k | 0 <= k < |sel| :: sel[k] < m && recs[sel[k]].addr == addrs[k] && recs[sel[k]].loc.lino == l)
    && (forall j | 0 <= j < m && recs[j].loc.lino == l :: j in sel)
  }

  lemma SelectsStep(recs: seq<Record>, m: nat, l: string, sel: seq<nat>, addrs: seq<nat>)
    requires m < |recs| && Selects(recs, m, l, sel, addrs)
    ensures recs[m].loc.lino != l ==> Selects(recs, m + 1, l, sel, addrs)
    ensures recs[m].loc.lino == l ==> Selects(recs, m + 1, l, sel + [m], addrs + [recs[m].addr])
  {
    assert forall j | j in sel :: j in sel + [m];
    assert (sel + [m])[|sel|] == m;
  }

  lemma {:induction false} LineSelected(recs: seq<Record>, m: nat, l: string) returns (sel: seq<nat>)
    requires m <= |recs|
    ensures Selects(recs, m, l, sel, LineAddrs(recs[..m], l))
  {
    hide Selects, LineAddrs;
    if m == 0 {
      sel := [];
      NoneSelected(recs, l);
    } else {
      var before := LineSelected(recs, m - 1, l);
      assert recs[..m] == recs[..m - 1] + [recs[m - 1]];
      LineAddrsSnoc(recs[..m - 1], recs[m - 1], l);
      SelectsStep(recs, m - 1, l, before, LineAddrs(recs[..m - 1], l));
      sel := if recs[m - 1].loc.lino == l then before + [m - 1] else before;
      assert LineAddrs(recs[..m - 1], l) + [] == LineAddrs(recs[..m - 1], l);
    }
  }

  lemma NoneSelected(recs: seq<Record>, l: string)
    ensures Selects(recs, 0, l, [], LineAddrs(recs[..0], l))
  {
  }

  lemma LineListed(dump: seq<DumpLine>, recs: seq<Record>, at: seq<nat>, l: string)
    requires IsIndex(dump, |dump|, recs, at)
    ensures ListsInOrder(dump, l, LineAddrs(recs, l))
  {
    hide Says, LineAddrs;
    var sel := LineSelected(recs, |recs|, l);
    assert recs[..|recs|] == recs;
    var places := seq(|sel|, k requires 0 <= k < |sel| => at[sel[k]]);
    var chosen := seq(|sel|, k requires 0 <= k < |sel| => recs[sel[k]]);
    forall i: nat, r | Says(dump, i, r) && r.loc.lino == l
      ensures i in places
    {
      var j := RecordOf(dump, recs, at, i, r);
      var k :| 0 <= k < |sel| && sel[k] == j;
      assert places[k] == i;
    }
    assert ListedAt(dump, l, LineAddrs(recs, l), places, chosen);
  }

  lemma DumpIsRead(dump: seq<DumpLine>, recs: seq<Record>, at: seq<nat>, db0: LineDb, db: LineDb)
    requires IsIndex(dump, |dump|, recs, at) && LineDataRead(recs, db0, db)
    ensures DumpRead(dump, db0, db)
  {
    hide IsIndex, LineDataRead, LocationsOfDump, FuncsOfDump, LinesOfDump;
    assert LocationsRead(recs, db0, db) && LinesRead(recs, db0, db) && FuncsRead(recs, db0, db) by {
      LineDataParts(recs, db0, db);
    }
    LocationsAreRead(dump, recs, at, db0, db);
    FuncsAreRead(dump, recs, at, db0, db);
    LinesAreRead(dump, recs, at, db0, db);
  }

  lemma LineDataParts(recs: seq<Record>, db0: LineDb, db: LineDb)
    requires LineDataRead(recs, db0, db)
    ensures LocationsRead(recs, db0, db) && LinesRead(recs, db0, db) && FuncsRead(recs, db0, db)
  {
  }

  lemma LocationsAreRead(dump: seq<DumpLine>, recs: seq<Record>, at: seq<nat>, db0: LineDb, db: LineDb)
    requires IsIndex(dump, |dump|, recs, at) && LocationsRead(recs, db0, db)
    ensures LocationsOfDump(dump, db0, db)
  {
    hide IsIndex, RecordedAddrs, Mentions, SaysLast;
    forall a: nat
      ensures a in RecordedAddrs(recs) <==> Mentions(dump, a)
    {
      MentionsRecorded(dump, recs, at, a);
    }
    forall i: nat, r | SaysLast(dump, i, r) && r.addr in db.lifu
      ensures db.lifu[r.addr] == r.loc
    {
      LastIsLast(dump, recs, at, i, r);
    }
  }

  lemma FuncsAreRead(dump: seq<DumpLine>, recs: seq<Record>, at: seq<nat>, db0: LineDb, db: LineDb)
    requires IsIndex(dump, |dump|, recs, at) && FuncsRead(recs, db0, db)
    ensures FuncsOfDump(dump, db0, db)
  {
    hide IsIndex, FuncAddrs, MentionsIn;
    forall f, a: nat
      ensures a in FuncAddrs(recs, f) <==> MentionsIn(dump, f, a)
    {
      MentionsFunc(dump, recs, at, f, a);
    }
    forall f
      ensures FuncAddrs(recs, f) != {} <==> exists a: nat :: MentionsIn(dump, f, a)
    {
      if FuncAddrs(recs, f) != {} {
        var a :| a in FuncAddrs(recs, f);
        assert MentionsIn(dump, f, a);
      }
    }
  }

  lemma LinesAreRead(dump: seq<DumpLine>, recs: seq<Record>, at: seq<nat>, db0: LineDb, db: LineDb)
    requires IsIndex(dump, |dump|, recs, at) && LinesRead(recs, db0, db)
    ensures LinesOfDump(dump, db0, db)
  {
    hide IsIndex, LineAddrs, ListsInOrder, SeqLookup;
    forall l
      ensures LineOfDump(dump, l, SeqLookup(db0.lines, l), SeqLookup(db.lines, l))
    {
      LineListed(dump, recs, at, l);
      assert SeqLookup(db.lines, l) == SeqLookup(db0.lines, l) + LineAddrs(recs, l);
    }
  }

  // ---------------------------------------------------------------------
  // What line data that was read is good for
  // ---------------------------------------------------------------------

  lemma {:induction false} LastWord(dump: seq<DumpLine>, i: nat, r: Record) returns (last: nat, q: Record)
    requires Says(dump, i, r)
    ensures SaysLast(dump, last, q) && q.addr == r.addr
    decreases |dump| - i
  {
    assert i < |dump|;
    hide Latest;
    if j: nat, p :| Says(dump, j, p) && p.addr == r.addr && j > i {
      last, q := LastWord(dump, j, p);
    } else {
      last, q := i, r;
    }
  }

  lemma SaidIsListed(dump: seq<DumpLine>, db0: LineDb, db: LineDb, i: nat, r: Record)
    requires LinesOfDump(dump, db0, db) && Says(dump, i, r)
    ensures r.addr in SeqLookup(db.lines, r.loc.lino)
  {
    hide Says, SeqLookup;
    assert LineOfDump(dump, r.loc.lino, SeqLookup(db0.lines, r.loc.lino), SeqLookup(db.lines, r.loc.lino));
    var more :| SeqLookup(db.lines, r.loc.lino) == SeqLookup(db0.lines, r.loc.lino) + more &&
      ListsInOrder(dump, r.loc.lino, more);
    var at, recs :| ListedAt(dump, r.loc.lino, more, at, recs);
    var k :| 0 <= k < |at| && at[k] == i;
    SaysOnce(dump, i, r, recs[k]);
    assert more[k] in more;
  }

  /** Reading a dump keeps every address listed under its own line and function. */
  lemma NamedFunctionsListed(dump: seq<DumpLine>, db0: LineDb, db: LineDb)
    requires DumpRead(dump, db0, db) && db0.Listed()
    ensures db.Listed()
  {
    hide Says, LinesOfDump, SaysLast;
    forall a | a in db.lifu
      ensures a in SeqLookup(db.lines, db.lifu[a].lino) && a in Splice.Lookup(db.funcs, db.lifu[a].func)
    {
      if Mentions(dump, a) {
        var i: nat, r :| Says(dump, i, r) && r.addr == a;
        var last, q := LastWord(dump, i, r);
        LastIsSaid(dump, last, q);
        SaidIsListed(dump, db0, db, last, q);
        assert MentionsIn(dump, q.loc.func, a);
      } else {
        KeptListed(dump, db0, db, a, db.lifu[a].lino);
      }
    }
  }

  lemma LastIsSaid(dump: seq<DumpLine>, i: nat, r: Record)
    requires SaysLast(dump, i, r)
    ensures Says(dump, i, r)
  {
  }

  lemma KeptListed(dump: seq<DumpLine>, db0: LineDb, db: LineDb, a: nat, l: string)
    requires LinesOfDump(dump, db0, db) && a in SeqLookup(db0.lines, l)
    ensures a in SeqLookup(db.lines, l)
  {
    hide ListsInOrder, SeqLookup;
    assert LineOfDump(dump, l, SeqLookup(db0.lines, l), SeqLookup(db.lines, l));
    var more :| SeqLookup(db.lines, l) == SeqLookup(db0.lines, l) + more && ListsInOrder(dump, l, more);
  }

  /** The lines from an address line to the next one all count for its address. */
  lemma BlockSays(dump: seq<DumpLine>, k: nat, i: nat)
    requires k <= i < |dump| && dump[k].At? && forall j | k < j <= i :: !dump[j].At?
    requires dump[i].At? || dump[i].InlinedBy?
    ensures Says(dump, i, Record(dump[k].addr, dump[i].loc))
  {
    assert LastAt(dump, i + 1, dump[k].addr, k);
  }

  lemma LaterSaysOther(dump: seq<DumpLine>, n: nat, a: nat, j: nat, q: Record)
    requires n < |dump| && dump[n].At? && forall m | n <= m < |dump| && dump[m].At? :: dump[m].addr != a
    requires j >= n && Says(dump, j, q)
    ensures q.addr != a
  {
    var m: nat :| LastAt(dump, j + 1, q.addr, m);
    assert !(m < n < j + 1);
  }

  /** Line `i` is line `k` for an address, or one of the inlined-by lines after it: its
      function and source line list the address; and if it is the last of these and the
      address does not come again, its function is that of the address. */
  lemma InlinedLinesCount(dump: seq<DumpLine>, k: nat, i: nat, n: nat, db0: LineDb, db: LineDb)
    requires DumpRead(dump, db0, db)
    requires k <= i < n <= |dump| && dump[k].At? && forall j | k < j < n :: !dump[j].At?
    requires dump[i].At? || dump[i].InlinedBy?
    ensures dump[k].addr in Splice.Lookup(db.funcs, dump[i].loc.func)
    ensures dump[k].addr in SeqLookup(db.lines, dump[i].loc.lino)
    ensures
      && (forall j | i < j < n :: dump[j].Unmatched?)
      && (n < |dump| ==> dump[n].At?)
      && (forall j | n <= j < |dump| && dump[j].At? :: dump[j].addr != dump[k].addr)
      ==> dump[k].addr in db.lifu && db.lifu[dump[k].addr] == dump[i].loc
  {
    var r := Record(dump[k].addr, dump[i].loc);
    BlockSays(dump, k, i);
    SaidIsListed(dump, db0, db, i, r);
    hide LinesOfDump, Latest;
    assert MentionsIn(dump, r.loc.func, r.addr) && Mentions(dump, r.addr);
    if && (forall j | i < j < n :: dump[j].Unmatched?)
       && (n < |dump| ==> dump[n].At?)
       && (forall j | n <= j < |dump| && dump[j].At? :: dump[j].addr != r.addr)
    {
      forall j: nat, q | Says(dump, j, q) && q.addr == r.addr
        ensures j <= i
      {
        if j >= n {
          LaterSaysOther(dump, n, r.addr, j, q);
        }
      }
      assert SaysLast(dump, i, r);
    }
  }
}
