/**
 * Folding a list of (key, count) tallies into a map of per-key totals: the
 * `result[key] = (result[key] ?: 0L) + record.count` loops of the health reader.
 */
module Grouping {
  import Sums

  /** One record's contribution: the bucket it falls in and its step count. */
  datatype Tally = Tally(key: int, count: int)

  /** The buckets that at least one tally falls in. */
  function KeysOf(ts: seq<Tally>): set<int> {
    set i | 0 <= i < |ts| :: ts[i].key
  }

  /** The sum of the counts of the tallies in bucket `k`. */
  function KeyTotal(ts: seq<Tally>, k: int): int
    decreases |ts|
  {
    if ts == [] then 0
    else KeyTotal(ts[..|ts| - 1], k) + (if ts[|ts| - 1].key == k then ts[|ts| - 1].count else 0)
  }

  /** The sum of all counts. */
  function TotalCount(ts: seq<Tally>): int
    decreases |ts|
  {
    if ts == [] then 0 else TotalCount(ts[..|ts| - 1]) + ts[|ts| - 1].count
  }

  /**
   * Reference definition of the grouped result: a bucket is present exactly
   * when some tally falls in it, and holds the sum of those tallies' counts.
   */
  function GroupTotals(ts: seq<Tally>): map<int, int> {
    map k | k in KeysOf(ts) :: KeyTotal(ts, k)
  }

  /** One step of the fold: add `t.count` to bucket `t.key`, which starts at 0 when absent. */
  function AddTo(m: map<int, int>, t: Tally): (r: map<int, int>)
    ensures r.Keys == m.Keys + {t.key}
    ensures r[t.key] == (if t.key in m then m[t.key] else 0) + t.count
    ensures forall k :: k in m && k != t.key ==> r[k] == m[k]
  {
    m[t.key := (if t.key in m then m[t.key] else 0) + t.count]
  }

  lemma {:induction false} KeyTotalAbsent(ts: seq<Tally>, k: int)
    requires k !in KeysOf(ts)
    ensures KeyTotal(ts, k) == 0
    decreases |ts|
  {
    if ts != [] {
      var init := ts[..|ts| - 1];
      assert KeysOf(init) <= KeysOf(ts) by {
        forall x | x in KeysOf(init) ensures x in KeysOf(ts) {
          var i :| 0 <= i < |init| && init[i].key == x;
          assert ts[i].key == x;
        }
      }
      assert ts[|ts| - 1].key in KeysOf(ts);
      KeyTotalAbsent(init, k);
    }
  }

  lemma KeysOfSnoc(ts: seq<Tally>, t: Tally)
    ensures KeysOf(ts + [t]) == KeysOf(ts) + {t.key}
  {
    var ts' := ts + [t];
    forall x | x in KeysOf(ts') ensures x in KeysOf(ts) + {t.key} {
      var i :| 0 <= i < |ts'| && ts'[i].key == x;
      if i < |ts| { assert ts[i].key == x; }
    }
    forall x | x in KeysOf(ts) + {t.key} ensures x in KeysOf(ts') {
      if x == t.key {
        assert ts'[|ts|].key == x;
      } else {
        var i :| 0 <= i < |ts| && ts[i].key == x;
        assert ts'[i].key == x;
      }
    }
  }

  /** Folding one more tally into the grouped result is one `AddTo` step. */
  lemma GroupTotalsSnoc(ts: seq<Tally>, t: Tally)
    ensures GroupTotals(ts + [t]) == AddTo(GroupTotals(ts), t)
  {
    var ts' := ts + [t];
    assert ts'[..|ts'| - 1] == ts;
    KeysOfSnoc(ts, t);
    if t.key !in KeysOf(ts) {
      KeyTotalAbsent(ts, t.key);
    }
  }

  /** Grouping loses no steps: the totals add up to the sum of all counts. */
  lemma {:induction false} GroupTotalsSum(ts: seq<Tally>)
    ensures Sums.SumValues(GroupTotals(ts)) == TotalCount(ts)
    decreases |ts|
  {
    if ts == [] {
      assert GroupTotals(ts) == map[];
    } else {
      var init, t := ts[..|ts| - 1], ts[|ts| - 1];
      assert ts == init + [t];
      GroupTotalsSnoc(init, t);
      GroupTotalsSum(init);
      Sums.SumValuesUpdate(GroupTotals(init), t.key, (if t.key in GroupTotals(init) then GroupTotals(init)[t.key] else 0) + t.count);
    }
  }
}
