/** Largest and smallest elements of finite sets of integer keys. */
module Extremes {

  /** `m` is the largest element of `s`. */
  predicate IsMax(m: int, s: set<int>) {
    m in s && forall x :: x in s ==> x <= m
  }

  /** `m` is the smallest element of `s`. */
  predicate IsMin(m: int, s: set<int>) {
    m in s && forall x :: x in s ==> m <= x
  }

  /** Every finite set of keys is empty or has a largest element. */
  lemma {:induction false} MaxExists(s: set<int>)
    ensures s == {} || exists m :: IsMax(m, s)
    decreases s
  {
    if forall y :: y !in s {
      assert s == {};
      return;
    }
    var y :| y in s;
    var rest := s - {y};
    if rest == {} {
      forall x | x in s ensures x <= y {
        assert x !in rest;
      }
      assert IsMax(y, s);
    } else {
      MaxExists(rest);
      var m :| IsMax(m, rest);
      var top := if y > m then y else m;
      forall x | x in s ensures x <= top {
        if x != y { assert x in rest; }
      }
      assert IsMax(top, s);
    }
  }

  /** Every finite set of keys is empty or has a smallest element. */
  lemma {:induction false} MinExists(s: set<int>)
    ensures s == {} || exists m :: IsMin(m, s)
    decreases s
  {
    if forall y :: y !in s {
      assert s == {};
      return;
    }
    var y :| y in s;
    var rest := s - {y};
    if rest == {} {
      forall x | x in s ensures y <= x {
        assert x !in rest;
      }
      assert IsMin(y, s);
    } else {
      MinExists(rest);
      var m :| IsMin(m, rest);
      var bottom := if y < m then y else m;
      forall x | x in s ensures bottom <= x {
        if x != y { assert x in rest; }
      }
      assert IsMin(bottom, s);
    }
  }

  /** The largest key of a non-empty set. */
  function MaxOf(s: set<int>): (m: int)
    requires s != {}
    ensures IsMax(m, s)
  {
    MaxExists(s);
    var m :| IsMax(m, s);
    m
  }

  /** The smallest key of a non-empty set. */
  function MinOf(s: set<int>): (m: int)
    requires s != {}
    ensures IsMin(m, s)
  {
    MinExists(s);
    var m :| IsMin(m, s);
    m
  }
}
