/** Result types shared by all parts of the model. */
module Common {

  datatype Option<+T> = None | Some(value: T)

  /** A computation that either returns a value or stops with an exception or a panic. */
  datatype Outcome<+T> = Ok(value: T) | Failed

  function Elements<T>(p: seq<T>): set<T> {
    set x | x in p
  }

  /** Positions in order, each once. */
  ghost predicate Increasing(at: seq<nat>) {
    forall i, j | 0 <= i < j < |at| :: at[i] < at[j]
  }

  lemma {:induction false} DistinctCount<T>(p: seq<T>)
    requires forall i, j | 0 <= i < j < |p| :: p[i] != p[j]
    ensures |Elements(p)| == |p|
  {
    if p != [] {
      var q := p[..|p| - 1];
      DistinctCount(q);
      assert Elements(p) == Elements(q) + {p[|p| - 1]};
    }
  }

  lemma SubsetCount<T>(a: set<T>, b: set<T>)
    requires a <= b
    ensures |a| <= |b|
    ensures |b - a| == |b| - |a|
  {
    assert b == a + (b - a);
  }
}
