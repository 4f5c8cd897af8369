/** What several modules need of sequences and sets. */
module Collections {

  predicate Distinct<T(==)>(s: seq<T>) {
    forall i, j :: 0 <= i < j < |s| ==> s[i] != s[j]
  }

  predicate Ascending(s: seq<int>) {
    forall i, j :: 0 <= i < j < |s| ==> s[i] < s[j]
  }

  lemma SubsetSize<T>(small: set<T>, big: set<T>)
    requires small <= big
    ensures |small| <= |big|
  {
    assert big == small + (big - small);
  }

  /** A batch computation that answers for each row. */
  ghost predicate OnePerRow<T(!new), U>(f: seq<T> -> seq<U>) {
    forall rows :: |f(rows)| == |rows|
  }

  /** What it answers for a row does not depend on which rows it is given with. */
  ghost predicate RowWise<T(!new), U>(f: seq<T> -> seq<U>)
    requires OnePerRow(f)
  {
    forall rows, i :: 0 <= i < |rows| ==> f(rows)[i] == f([rows[i]])[0]
  }
}
