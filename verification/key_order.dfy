/** Ordering finite sets of integer keys, as the `ORDER BY` clauses of the tables do. */
module KeyOrder {
  import opened Extremes

  predicate StrictlyDecreasing(s: seq<int>) {
    forall i, j :: 0 <= i < j < |s| ==> s[i] > s[j]
  }

  predicate StrictlyIncreasing(s: seq<int>) {
    forall i, j :: 0 <= i < j < |s| ==> s[i] < s[j]
  }

  /** The keys of `s`, largest first (`ORDER BY key DESC`). */
  function SortedDesc(s: set<int>): (r: seq<int>)
    ensures forall x :: x in r <==> x in s
    ensures StrictlyDecreasing(r)
    ensures |r| == |s|
    decreases s
  {
    if s == {} then []
    else
      var m := MaxOf(s);
      var rest := SortedDesc(s - {m});
      assert forall x :: x in rest ==> x < m;
      [m] + rest
  }

  /** The keys of `s`, smallest first (`ORDER BY key ASC`). */
  function SortedAsc(s: set<int>): (r: seq<int>)
    ensures forall x :: x in r <==> x in s
    ensures StrictlyIncreasing(r)
    ensures |r| == |s|
    decreases s
  {
    if s == {} then []
    else
      var m := MinOf(s);
      var rest := SortedAsc(s - {m});
      assert forall x :: x in rest ==> m < x;
      [m] + rest
  }
}
