/** Joining line coverage with audit reports, the classification of functions, and
    the coverage database that runs can share. */
module Smatcher {
  import opened Common

  /** One line of an audit report. */
  datatype Entry = Entry(category: string, line: string, func: string)

  /** One input: the lines it covered and its report, if one was found. */
  datatype Item = Item(cov: set<string>, report: Option<set<Entry>>)

  datatype Mark = Covered | NotCovered | Partial

  // ---------------------------------------------------------------------
  // What the join and the classification mean
  // ---------------------------------------------------------------------

  /** The entry was reported for some input that covered its line. */
  ghost predicate Hit(items: seq<Item>, e: Entry) {
    exists i :: 0 <= i < |items| && HitIn(items[i], e)
  }

  ghost predicate HitIn(item: Item, e: Entry) {
    item.report.Some? && e in item.report.value && e.line in item.cov
  }

  ghost predicate Reported(items: seq<Item>, e: Entry) {
    exists i :: 0 <= i < |items| && ReportedIn(items[i], e)
  }

  ghost predicate ReportedIn(item: Item, e: Entry) {
    item.report.Some? && e in item.report.value
  }

  ghost predicate IsHits(items: seq<Item>, s: set<Entry>) {
    forall e :: e in s <==> Hit(items, e)
  }

  ghost predicate IsReported(items: seq<Item>, s: set<Entry>) {
    forall e :: e in s <==> Reported(items, e)
  }

  function FuncsOf(s: set<Entry>): set<string> {
    set e | e in s :: e.func
  }

  // ---------------------------------------------------------------------
  // The loops of the join
  // ---------------------------------------------------------------------

  function AtLine(byLine: map<string, set<Entry>>, line: string): set<Entry> {
    if line in byLine then byLine[line] else {}
  }

  /** Indexes a report by line. */
  method IndexByLine(report: set<Entry>) returns (byLine: map<string, set<Entry>>)
    ensures forall l :: AtLine(byLine, l) == set e | e in report && e.line == l
  {
    byLine := map[];
    var todo := report;
    while todo != {}
      invariant todo <= report
      invariant forall l :: AtLine(byLine, l) == set e | e in report - todo && e.line == l
    {
      var e :| e in todo;
      ghost var before, left := byLine, todo;
      byLine := byLine[e.line := AtLine(byLine, e.line) + {e}];
      todo := todo - {e};
      forall l
        ensures AtLine(byLine, l) == set x | x in report - todo && x.line == l
      {
        assert AtLine(before, l) == set x | x in report - left && x.line == l;
        assert AtLine(byLine, l) == AtLine(before, l) + if l == e.line then {e} else {};
      }
    }
  }

  /** The entries of one report whose line is covered, found through the index. */
  method JoinItem(cov: set<string>, report: set<Entry>) returns (hits: set<Entry>)
    ensures hits == set e | e in report && e.line in cov
  {
    var byLine := IndexByLine(report);
    hits := {};
    var todo := cov;
    while todo != {}
      invariant todo <= cov
      invariant hits == set e | e in report && e.line in cov - todo
    {
      var line :| line in todo;
      var entries := AtLine(byLine, line);
      assert entries == set e | e in report && e.line == line;
      assert hits + entries == set e | e in report && e.line in cov - (todo - {line});
      if |entries| > 0 {
        hits := hits + entries;
      } else {
        assert hits + entries == hits;
      }
      todo := todo - {line};
    }
  }

  lemma HitSnoc(items: seq<Item>, item: Item, e: Entry)
    ensures Hit(items + [item], e) <==> Hit(items, e) || HitIn(item, e)
    ensures Reported(items + [item], e) <==> Reported(items, e) || ReportedIn(item, e)
  {
    var all := items + [item];
    assert all[|items|] == item;
    if Hit(items, e) {
      var i :| 0 <= i < |items| && HitIn(items[i], e);
      assert HitIn(all[i], e);
    }
    if Reported(items, e) {
      var i :| 0 <= i < |items| && ReportedIn(items[i], e);
      assert ReportedIn(all[i], e);
    }
  }

  /** Goes through the inputs; those without a report are skipped. */
  method JoinAll(items: seq<Item>) returns (hits: set<Entry>, reported: set<Entry>)
    ensures IsHits(items, hits)
    ensures IsReported(items, reported)
  {
    hide Hit, Reported;
    hits, reported := {}, {};
    NoItems();
    for i := 0 to |items|
      invariant IsHits(items[..i], hits)
      invariant IsReported(items[..i], reported)
    {
      assert items[..i + 1] == items[..i] + [items[i]];
      forall e
        ensures Hit(items[..i + 1], e) <==> Hit(items[..i], e) || HitIn(items[i], e)
        ensures Reported(items[..i + 1], e) <==> Reported(items[..i], e) || ReportedIn(items[i], e)
      {
        HitSnoc(items[..i], items[i], e);
      }
      if items[i].report.Some? {
        var report := items[i].report.value;
        reported := reported + report;
        var found := JoinItem(items[i].cov, report);
        assert forall e :: e in found <==> HitIn(items[i], e);
        assert forall e :: e in report <==> ReportedIn(items[i], e);
        hits := hits + found;
      } else {
        assert forall e :: !HitIn(items[i], e) && !ReportedIn(items[i], e);
      }
    }
    assert items[..|items|] == items;
  }

  lemma NoItems()
    ensures IsHits([], {}) && IsReported([], {})
  {
  }

  // ---------------------------------------------------------------------
  // A run with its database
  // ---------------------------------------------------------------------

  /** What a run prints for the functions of its reports. */
  datatype Summary = Summary(covered: set<Entry>, reported: set<Entry>)
  {
    function NotCoveredEntries(): set<Entry> {
      reported - covered
    }

    function CoveredFuncs(): set<string> {
      FuncsOf(covered)
    }

    function PartialFuncs(): set<string> {
      FuncsOf(NotCoveredEntries()) * CoveredFuncs()
    }

    /** The sign printed before a function. */
    function MarkOf(func: string): Mark {
      if func in PartialFuncs() then Partial
      else if func in CoveredFuncs() then Covered
      else NotCovered
    }
  }

  /** Covered entries are the hits and what was loaded or merged in from the database. */
  ghost predicate CoversHitsAnd(items: seq<Item>, extra: set<Entry>, covered: set<Entry>) {
    forall e :: e in covered <==> e in extra || Hit(items, e)
  }

  /** The database file, if it exists. */
  class Database {
    var stored: Option<set<Entry>>

    constructor (stored: Option<set<Entry>>)
      ensures this.stored == stored
    {
      this.stored := stored;
    }

    function Contents(): set<Entry>
      reads this
    {
      if stored.Some? then stored.value else {}
    }

    /** One run. Loading fails without a database; saving merges and writes it. */
    method Run(items: seq<Item>, load: bool, save: bool) returns (r: Outcome<Summary>)
      modifies this
      ensures r.Failed? <==> load && old(stored).None?
      ensures r.Failed? ==> stored == old(stored)
      ensures r.Ok? ==> IsReported(items, r.value.reported)
      ensures r.Ok? ==>
                CoversHitsAnd(items, if load || save then old(Contents()) else {}, r.value.covered)
      ensures r.Ok? ==> stored == if save then Some(r.value.covered) else old(stored)
    {
      hide Hit, IsReported;
      var covered: set<Entry> := {};
      if load {
        if stored.None? {
          return Failed;
        }
        covered := covered + stored.value;
      }
      var hits, reported := JoinAll(items);
      covered := covered + hits;
      if save {
        if stored.Some? {
          covered := covered + stored.value;
        }
        stored := Some(covered);
      }
      return Ok(Summary(covered, reported));
    }
  }

  // ---------------------------------------------------------------------
  // The classification
  // ---------------------------------------------------------------------

  ghost predicate AllCovered(s: Summary, func: string) {
    forall e | e in s.reported && e.func == func :: e in s.covered
  }

  /** No reported entry of the function is covered. */
  ghost predicate NoneCovered(s: Summary, func: string) {
    forall e | e in s.reported && e.func == func :: e !in s.covered
  }

  /** The database brings in a covered entry of the function that no report has now. */
  ghost predicate StaleEntry(s: Summary, func: string) {
    exists e :: e in s.covered && e !in s.reported && e.func == func
  }

  /** The sign of every reported function: `+` iff all its entries are covered;
      `-` iff none is and the database adds none; `/` otherwise. */
  lemma MarksAreExact(s: Summary, func: string)
    requires func in FuncsOf(s.reported)
    ensures s.MarkOf(func) == Covered <==> AllCovered(s, func)
    ensures s.MarkOf(func) == NotCovered <==> NoneCovered(s, func) && !StaleEntry(s, func)
    ensures s.MarkOf(func) == Partial <==> !AllCovered(s, func) && (!NoneCovered(s, func) || StaleEntry(s, func))
  {
    var some :| some in s.reported && some.func == func;
    assert func in FuncsOf(s.NotCoveredEntries()) <==> !AllCovered(s, func);
    assert func in s.CoveredFuncs() <==> !NoneCovered(s, func) || StaleEntry(s, func);
  }

  /** Every reported function has the sign that its reported entries call for. */
  ghost predicate MarksRight(s: Summary) {
    forall func | func in FuncsOf(s.reported) ::
      && (s.MarkOf(func) == Covered <==> AllCovered(s, func))
      && (s.MarkOf(func) == NotCovered <==> NoneCovered(s, func))
      && (s.MarkOf(func) == Partial <==> !AllCovered(s, func) && !NoneCovered(s, func))
  }

  ghost predicate FuncReported(items: seq<Item>, func: string) {
    exists q :: Reported(items, q) && q.func == func
  }

  /** Some reported entry of the function is hit now or was covered before. */
  ghost predicate FuncCovered(items: seq<Item>, db: set<Entry>, func: string) {
    exists q :: Reported(items, q) && q.func == func && (q in db || Hit(items, q))
  }

  /** No database entry that the reports no longer have stands alone for its function. */
  ghost predicate NoStaleEntry(items: seq<Item>, db: set<Entry>) {
    forall e | e in db && !Reported(items, e) && FuncReported(items, e.func) :: FuncCovered(items, db, e.func)
  }

  lemma HitIsReported(items: seq<Item>, e: Entry)
    requires Hit(items, e)
    ensures Reported(items, e)
  {
    var i :| 0 <= i < |items| && HitIn(items[i], e);
    assert ReportedIn(items[i], e);
  }

  /** What a summary says of a function, in terms of the inputs and the database. */
  lemma SummaryMeaning(items: seq<Item>, db: set<Entry>, s: Summary, func: string)
    requires IsReported(items, s.reported) && CoversHitsAnd(items, db, s.covered)
    ensures func in FuncsOf(s.reported) <==> FuncReported(items, func)
    ensures NoneCovered(s, func) <==> !FuncCovered(items, db, func)
    ensures StaleEntry(s, func) <==> exists e :: e in db && !Reported(items, e) && e.func == func
  {
    hide Hit, Reported;
    forall e | Hit(items, e)
      ensures Reported(items, e)
    {
      HitIsReported(items, e);
    }
  }

  /** Exactly when the signs are right for all functions: a covered entry that the
      reports no longer have must not be the only covered one of a reported function. */
  lemma MarksRightIffNoStale(items: seq<Item>, db: set<Entry>, s: Summary)
    requires IsReported(items, s.reported) && CoversHitsAnd(items, db, s.covered)
    ensures MarksRight(s) <==> NoStaleEntry(items, db)
  {
    hide Hit, Reported, IsReported, CoversHitsAnd, Summary.MarkOf, AllCovered, NoneCovered, StaleEntry, FuncsOf;
    hide FuncReported, FuncCovered;
    forall func
      ensures func in FuncsOf(s.reported) <==> FuncReported(items, func)
      ensures NoneCovered(s, func) <==> !FuncCovered(items, db, func)
      ensures StaleEntry(s, func) <==> exists e :: e in db && !Reported(items, e) && e.func == func
    {
      SummaryMeaning(items, db, s, func);
    }
    forall func | func in FuncsOf(s.reported)
      ensures s.MarkOf(func) == Covered <==> AllCovered(s, func)
      ensures s.MarkOf(func) == NotCovered <==> NoneCovered(s, func) && !StaleEntry(s, func)
      ensures s.MarkOf(func) == Partial <==> !AllCovered(s, func) && (!NoneCovered(s, func) || StaleEntry(s, func))
    {
      MarksAreExact(s, func);
    }
  }

  /** A stale entry misleads: the function's only reported entry is not covered, its
      line moved since the database was saved, and its sign is `/`. */
  lemma StaleEntryMisleads(category: string, func: string)
    ensures
      var now, before := Entry(category, "file.c:2", func), Entry(category, "file.c:1", func);
      var items, db := [Item({}, Some({now}))], {before};
      var s := Summary(db, {now});
      && IsReported(items, s.reported) && CoversHitsAnd(items, db, s.covered)
      && NoneCovered(s, func) && s.MarkOf(func) == Partial
  {
    var now, before := Entry(category, "file.c:2", func), Entry(category, "file.c:1", func);
    var items := [Item({}, Some({now}))];
    var s := Summary({before}, {now});
    assert now.line[7] != before.line[7];
    assert ReportedIn(items[0], now);
    assert now in s.NotCoveredEntries() && before in s.covered;
  }

  /** Without a database nothing is stale, so every sign is right. */
  lemma FreshMarksAreRight(items: seq<Item>, s: Summary)
    requires IsReported(items, s.reported) && CoversHitsAnd(items, {}, s.covered)
    ensures MarksRight(s)
  {
    MarksRightIffNoStale(items, {}, s);
  }

  // ---------------------------------------------------------------------
  // Sequences of runs
  // ---------------------------------------------------------------------

  /** The entry is hit in one of the runs. */
  ghost predicate HitInRuns(runs: seq<seq<Item>>, e: Entry) {
    exists k :: 0 <= k < |runs| && Hit(runs[k], e)
  }

  /** What a sequence of saved runs leaves in the database. */
  ghost predicate LeftByRuns(before: set<Entry>, runs: seq<seq<Item>>, after: set<Entry>) {
    forall e :: e in after <==> e in before || HitInRuns(runs, e)
  }

  /** Saves a sequence of runs into one database. */
  method SaveRuns(db: Database, runs: seq<seq<Item>>)
    modifies db
    ensures runs != [] ==> db.stored.Some?
    ensures LeftByRuns(old(db.Contents()), runs, db.Contents())
  {
    hide Hit;
    for k := 0 to |runs|
      invariant k > 0 ==> db.stored.Some?
      invariant LeftByRuns(old(db.Contents()), runs[..k], db.Contents())
    {
      ghost var before := db.Contents();
      var r := db.Run(runs[k], false, true);
      forall e
        ensures HitInRuns(runs[..k + 1], e) <==> HitInRuns(runs[..k], e) || Hit(runs[k], e)
      {
        HitInRunsStep(runs, k, e);
      }
      assert forall e :: e in db.Contents() <==> e in before || Hit(runs[k], e);
    }
    assert runs[..|runs|] == runs;
  }

  lemma HitInRunsStep(runs: seq<seq<Item>>, k: nat, e: Entry)
    requires k < |runs|
    ensures HitInRuns(runs[..k + 1], e) <==> HitInRuns(runs[..k], e) || Hit(runs[k], e)
  {
    assert runs[..k + 1][k] == runs[k];
    if HitInRuns(runs[..k], e) {
      var j :| 0 <= j < k && Hit(runs[..k][j], e);
      assert Hit(runs[..k + 1][j], e);
    }
    if HitInRuns(runs[..k + 1], e) && !Hit(runs[k], e) {
      var j :| 0 <= j < k + 1 && Hit(runs[..k + 1][j], e);
      assert Hit(runs[..k][j], e);
    }
  }

  lemma HitInSomeRun(runs: seq<seq<Item>>, runs': seq<seq<Item>>, e: Entry)
    requires multiset(runs) == multiset(runs') && HitInRuns(runs, e)
    ensures HitInRuns(runs', e)
  {
    var k :| 0 <= k < |runs| && Hit(runs[k], e);
    assert runs[k] in multiset(runs');
    var j :| 0 <= j < |runs'| && runs'[j] == runs[k];
  }

  /** The database ends up the same, whatever the order of the saved runs. */
  lemma SavedRunsIgnoreOrder(
    before: set<Entry>, runs: seq<seq<Item>>, after: set<Entry>, runs': seq<seq<Item>>, after': set<Entry>)
    requires multiset(runs) == multiset(runs')
    requires LeftByRuns(before, runs, after) && LeftByRuns(before, runs', after')
    ensures after == after'
  {
    hide HitInRuns;
    forall e
      ensures HitInRuns(runs, e) <==> HitInRuns(runs', e)
    {
      if HitInRuns(runs, e) {
        HitInSomeRun(runs, runs', e);
      }
      if HitInRuns(runs', e) {
        HitInSomeRun(runs', runs, e);
      }
    }
  }
}
