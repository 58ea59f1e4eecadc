/** A set of addresses kept as a sorted list of disjoint, non-adjacent ranges. */
module RangeSet {

  datatype Range = Range(lo: nat, hi: nat)

  ghost predicate In(a: nat, r: Range) {
    r.lo <= a <= r.hi
  }

  /** The address lies in one of the ranges. */
  ghost predicate Covers(rs: seq<Range>, a: nat) {
    exists i :: 0 <= i < |rs| && In(a, rs[i])
  }

  /** Ranges in order, with a gap between any two. */
  ghost predicate Canonical(rs: seq<Range>) {
    && (forall i | 0 <= i < |rs| :: rs[i].lo <= rs[i].hi)
    && (forall i, j | 0 <= i < j < |rs| :: rs[i].hi + 1 < rs[j].lo)
  }

  /** The ranges after adding one, which absorbs every range it overlaps or touches. */
  function Insert(rs: seq<Range>, r: Range): seq<Range> {
    if rs == [] then [r]
    else if rs[0].hi + 1 < r.lo then [rs[0]] + Insert(rs[1..], r)
    else if r.hi + 1 < rs[0].lo then [r] + rs
    else
      Insert(rs[1..], Range(if rs[0].lo < r.lo then rs[0].lo else r.lo, if rs[0].hi < r.hi then r.hi else rs[0].hi))
  }

  lemma CoversCons(rs: seq<Range>, a: nat)
    requires rs != []
    ensures Covers(rs, a) <==> In(a, rs[0]) || Covers(rs[1..], a)
  {
    if Covers(rs, a) && !In(a, rs[0]) {
      var i :| 0 <= i < |rs| && In(a, rs[i]);
      assert In(a, rs[1..][i - 1]);
    }
    if Covers(rs[1..], a) {
      var i :| 0 <= i < |rs| - 1 && In(a, rs[1..][i]);
      assert In(a, rs[i + 1]);
    }
  }

  /** Inserting adds exactly the addresses of the range. */
  lemma {:induction false} InsertCovers(rs: seq<Range>, r: Range, a: nat)
    requires Canonical(rs) && r.lo <= r.hi
    ensures Covers(Insert(rs, r), a) <==> Covers(rs, a) || In(a, r)
    decreases |rs|
  {
    var out := Insert(rs, r);
    if rs == [] {
      CoversCons(out, a);
    } else {
      CoversCons(rs, a);
      if rs[0].hi + 1 < r.lo {
        InsertCovers(rs[1..], r, a);
        CoversCons(out, a);
        assert out[1..] == Insert(rs[1..], r);
      } else if r.hi + 1 < rs[0].lo {
        CoversCons(out, a);
        assert out[1..] == rs;
      } else {
        var merged := Range(if rs[0].lo < r.lo then rs[0].lo else r.lo, if rs[0].hi < r.hi then r.hi else rs[0].hi);
        InsertCovers(rs[1..], merged, a);
      }
    }
  }

  /** Inserting keeps the list sorted and gapped. */
  lemma {:induction false} InsertCanonical(rs: seq<Range>, r: Range)
    requires Canonical(rs) && r.lo <= r.hi
    ensures Canonical(Insert(rs, r))
    ensures Insert(rs, r) != [] && Insert(rs, r)[0].lo >= if rs != [] && rs[0].lo < r.lo then rs[0].lo else r.lo
    decreases |rs|
  {
    if rs != [] {
      if rs[0].hi + 1 < r.lo {
        InsertCanonical(rs[1..], r);
        PrependCanonical(rs[0], Insert(rs[1..], r));
      } else if r.hi + 1 < rs[0].lo {
        PrependCanonical(r, rs);
      } else {
        var merged := Range(if rs[0].lo < r.lo then rs[0].lo else r.lo, if rs[0].hi < r.hi then r.hi else rs[0].hi);
        InsertCanonical(rs[1..], merged);
      }
    }
  }

  lemma PrependCanonical(r: Range, rs: seq<Range>)
    requires r.lo <= r.hi && Canonical(rs) && (rs != [] ==> r.hi + 1 < rs[0].lo)
    ensures Canonical([r] + rs)
  {
  }

  lemma NotCoveredBelow(rs: seq<Range>, a: nat)
    requires Canonical(rs) && (rs == [] || a < rs[0].lo)
    ensures !Covers(rs, a)
  {
  }

  /** The heads of two lists that cover the same addresses. */
  lemma HeadsEqual(a: seq<Range>, b: seq<Range>)
    requires Canonical(a) && Canonical(b) && a != [] && b != []
    requires forall x :: Covers(a, x) <==> Covers(b, x)
    ensures a[0] == b[0]
  {
    CoversCons(a, a[0].lo);
    CoversCons(b, b[0].lo);
    if a[0].lo < b[0].lo {
      NotCoveredBelow(b, a[0].lo);
    } else if b[0].lo < a[0].lo {
      NotCoveredBelow(a, b[0].lo);
    }
    EndNotCovered(a);
    EndNotCovered(b);
    CoversCons(b, a[0].hi + 1);
    CoversCons(a, b[0].hi + 1);
  }

  lemma EndNotCovered(rs: seq<Range>)
    requires Canonical(rs) && rs != []
    ensures !Covers(rs, rs[0].hi + 1)
  {
  }

  /** The address set determines the list. */
  lemma {:induction false} CanonicalUnique(a: seq<Range>, b: seq<Range>)
    requires Canonical(a) && Canonical(b)
    requires forall x :: Covers(a, x) <==> Covers(b, x)
    ensures a == b
    decreases |a|
  {
    if a == [] {
      if b != [] {
        CoversCons(b, b[0].lo);
      }
    } else if b == [] {
      CoversCons(a, a[0].lo);
    } else {
      HeadsEqual(a, b);
      forall x
        ensures Covers(a[1..], x) <==> Covers(b[1..], x)
      {
        CoversCons(a, x);
        CoversCons(b, x);
        TailAboveHead(a, x);
        TailAboveHead(b, x);
      }
      CanonicalUnique(a[1..], b[1..]);
    }
  }

  lemma TailAboveHead(rs: seq<Range>, x: nat)
    requires Canonical(rs) && rs != []
    ensures Covers(rs[1..], x) ==> !In(x, rs[0])
  {
    if Covers(rs[1..], x) {
      var i :| 0 <= i < |rs| - 1 && In(x, rs[1..][i]);
      assert rs[1..][i] == rs[i + 1];
    }
  }

  // ---------------------------------------------------------------------
  // Inserting several ranges
  // ---------------------------------------------------------------------

  function InsertAll(db: seq<Range>, rs: seq<Range>): seq<Range> {
    if rs == [] then db else Insert(InsertAll(db, rs[..|rs| - 1]), rs[|rs| - 1])
  }

  ghost predicate Ordered(rs: seq<Range>) {
    forall i | 0 <= i < |rs| :: rs[i].lo <= rs[i].hi
  }

  lemma {:induction false} InsertAllMeaning(db: seq<Range>, rs: seq<Range>)
    requires Canonical(db) && Ordered(rs)
    ensures Canonical(InsertAll(db, rs))
    ensures forall a :: Covers(InsertAll(db, rs), a) <==> Covers(db, a) || Covers(rs, a)
  {
    if rs != [] {
      var init, last := rs[..|rs| - 1], rs[|rs| - 1];
      InsertAllMeaning(db, init);
      InsertCanonical(InsertAll(db, init), last);
      forall a
        ensures Covers(InsertAll(db, rs), a) <==> Covers(db, a) || Covers(rs, a)
      {
        InsertCovers(InsertAll(db, init), last, a);
        CoversSnoc(rs, a);
      }
    }
  }

  lemma CoversSnoc(rs: seq<Range>, a: nat)
    requires rs != []
    ensures Covers(rs, a) <==> Covers(rs[..|rs| - 1], a) || In(a, rs[|rs| - 1])
  {
    if Covers(rs, a) && !In(a, rs[|rs| - 1]) {
      var i :| 0 <= i < |rs| && In(a, rs[i]);
      assert In(a, rs[..|rs| - 1][i]);
    }
    if Covers(rs[..|rs| - 1], a) {
      var i :| 0 <= i < |rs| - 1 && In(a, rs[..|rs| - 1][i]);
      assert In(a, rs[i]);
    }
  }
}
