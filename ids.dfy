/** Sets of account ids: the least one, by which stored accounts are enumerated. */
module Ids {
  predicate IsLeast(k: int, s: set<int>)
  {
    k in s && forall j :: j in s ==> k <= j
  }

  /** The least element of a non-empty set of ids. */
  function MinOf(s: set<int>): (k: int)
    requires s != {}
    ensures IsLeast(k, s)
  {
    assert exists k :: IsLeast(k, s) by {
      MemberOfNonEmpty(s);
      var x :| x in s;
      MinExists(s, x);
    }
    var k :| IsLeast(k, s);
    k
  }

  lemma MemberOfNonEmpty(s: set<int>)
    requires s != {}
    ensures exists x :: x in s
  {
    if forall x :: x !in s {
      assert false;
    }
  }

  /** A set holding x has a least element. */
  lemma {:induction false} MinExists(s: set<int>, x: int)
    requires x in s
    ensures exists k :: IsLeast(k, s)
    decreases |s|
  {
    var rest := s - {x};
    if y :| y in rest && y < x {
      MinExists(rest, y);
      var m :| IsLeast(m, rest);
      var least := if x < m then x else m;
      forall j | j in s ensures least <= j {
        if j != x { assert j in rest; }
      }
      assert IsLeast(least, s);
    } else {
      forall j | j in s ensures x <= j {
        if j != x { assert j in rest; }
      }
      assert IsLeast(x, s);
    }
  }
}
