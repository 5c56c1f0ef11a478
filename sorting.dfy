/**
 * The ordering a page of accounts is returned in: one account property and a
 * direction, as in `Sort.by(Sort.Direction.ASC, "amount")`, and a sort of a
 * sequence of accounts by it.
 */
module Sorting {
  import opened Accounts
  import Text

  datatype Property = Id | Amount | AccountType | Owner
  datatype Direction = Asc | Desc
  datatype Order = Order(property: Property, direction: Direction)

  /** Ascending comparison on one property; text properties compare lexicographically by character. */
  predicate KeyLeq(a: BankAccount, b: BankAccount, p: Property)
  {
    match p
    case Id => a.id <= b.id
    case Amount => a.amount <= b.amount
    case AccountType => Text.LexLeq(a.accountType, b.accountType)
    case Owner => Text.LexLeq(a.owner, b.owner)
  }

  /** a may come before b under the order. */
  predicate InOrder(a: BankAccount, b: BankAccount, o: Order)
  {
    if o.direction == Asc then KeyLeq(a, b, o.property) else KeyLeq(b, a, o.property)
  }

  lemma InOrderTotal(a: BankAccount, b: BankAccount, o: Order)
    ensures InOrder(a, b, o) || InOrder(b, a, o)
  {
    match o.property
    case AccountType => Text.LexLeqTotal(a.accountType, b.accountType);
    case Owner => Text.LexLeqTotal(a.owner, b.owner);
    case _ =>
  }

  lemma InOrderTransitive(a: BankAccount, b: BankAccount, c: BankAccount, o: Order)
    requires InOrder(a, b, o) && InOrder(b, c, o)
    ensures InOrder(a, c, o)
  {
    match o.property
    case AccountType =>
      if o.direction == Asc {
        Text.LexLeqTransitive(a.accountType, b.accountType, c.accountType);
      } else {
        Text.LexLeqTransitive(c.accountType, b.accountType, a.accountType);
      }
    case Owner =>
      if o.direction == Asc {
        Text.LexLeqTransitive(a.owner, b.owner, c.owner);
      } else {
        Text.LexLeqTransitive(c.owner, b.owner, a.owner);
      }
    case _ =>
  }

  /** Every account comes no later than every account after it. */
  predicate SortedBy(s: seq<BankAccount>, o: Order)
  {
    forall i, j :: 0 <= i < j < |s| ==> InOrder(s[i], s[j], o)
  }

  /** No account occurs twice. */
  predicate Distinct(s: seq<BankAccount>)
  {
    forall i, j :: 0 <= i < j < |s| ==> s[i] != s[j]
  }

  lemma SortedCons(x: BankAccount, s: seq<BankAccount>, o: Order)
    requires SortedBy(s, o)
    requires forall y :: y in s ==> InOrder(x, y, o)
    ensures SortedBy([x] + s, o)
  {
    var r := [x] + s;
    forall i, j | 0 <= i < j < |r| ensures InOrder(r[i], r[j], o) {
      if i == 0 {
        assert r[j] == s[j - 1];
      } else {
        assert r[i] == s[i - 1] && r[j] == s[j - 1];
      }
    }
  }

  lemma PrecedesAllOfSorted(x: BankAccount, s: seq<BankAccount>, o: Order)
    requires SortedBy(s, o) && s != [] && InOrder(x, s[0], o)
    ensures forall y :: y in s ==> InOrder(x, y, o)
  {
    forall y | y in s ensures InOrder(x, y, o) {
      var k :| 0 <= k < |s| && s[k] == y;
      if k > 0 { InOrderTransitive(x, s[0], y, o); }
    }
  }

  lemma DistinctCons(x: BankAccount, s: seq<BankAccount>)
    requires Distinct(s) && x !in s
    ensures Distinct([x] + s)
  {
    var r := [x] + s;
    forall i, j | 0 <= i < j < |r| ensures r[i] != r[j] {
      assert r[j] == s[j - 1];
      if i > 0 { assert r[i] == s[i - 1]; }
    }
  }

  /** Places x in front of the first account it may precede, so earlier input stays earlier on ties. */
  function Insert(x: BankAccount, s: seq<BankAccount>, o: Order): (r: seq<BankAccount>)
  {
    if s == [] then [x]
    else if InOrder(x, s[0], o) then [x] + s
    else [s[0]] + Insert(x, s[1..], o)
  }

  /** Insertion sort by the order. */
  function SortBy(s: seq<BankAccount>, o: Order): (r: seq<BankAccount>)
  {
    if s == [] then [] else Insert(s[0], SortBy(s[1..], o), o)
  }

  lemma {:induction false} InsertPermutes(x: BankAccount, s: seq<BankAccount>, o: Order)
    ensures multiset(Insert(x, s, o)) == multiset(s) + multiset{x}
  {
    if s != [] && !InOrder(x, s[0], o) {
      InsertPermutes(x, s[1..], o);
      assert s == [s[0]] + s[1..];
    }
  }

  lemma {:induction false} InsertSorted(x: BankAccount, s: seq<BankAccount>, o: Order)
    requires SortedBy(s, o)
    ensures SortedBy(Insert(x, s, o), o)
  {
    if s == [] {
    } else if InOrder(x, s[0], o) {
      PrecedesAllOfSorted(x, s, o);
      SortedCons(x, s, o);
    } else {
      var rest := Insert(x, s[1..], o);
      InsertSorted(x, s[1..], o);
      InsertPermutes(x, s[1..], o);
      InOrderTotal(x, s[0], o);
      forall y | y in rest ensures InOrder(s[0], y, o) {
        assert y in multiset(rest);
        if y != x {
          var k :| 0 <= k < |s[1..]| && s[1..][k] == y;
          assert s[k + 1] == y;
        }
      }
      SortedCons(s[0], rest, o);
    }
  }

  lemma {:induction false} InsertDistinct(x: BankAccount, s: seq<BankAccount>, o: Order)
    requires Distinct(s) && x !in s
    ensures Distinct(Insert(x, s, o))
  {
    if s == [] {
    } else if InOrder(x, s[0], o) {
      DistinctCons(x, s);
    } else {
      assert s == [s[0]] + s[1..];
      InsertDistinct(x, s[1..], o);
      InsertPermutes(x, s[1..], o);
      assert s[0] !in multiset(Insert(x, s[1..], o));
      DistinctCons(s[0], Insert(x, s[1..], o));
    }
  }

  /**
   * The sort returns the same accounts, as a multiset, in the order; an input
   * without repetitions gives an output without repetitions.
   */
  lemma {:induction false} SortByCorrect(s: seq<BankAccount>, o: Order)
    ensures SortedBy(SortBy(s, o), o)
    ensures multiset(SortBy(s, o)) == multiset(s)
    ensures Distinct(s) ==> Distinct(SortBy(s, o))
  {
    if s != [] {
      var rest := SortBy(s[1..], o);
      SortByCorrect(s[1..], o);
      InsertSorted(s[0], rest, o);
      InsertPermutes(s[0], rest, o);
      assert s == [s[0]] + s[1..];
      if Distinct(s) {
        assert Distinct(s[1..]);
        assert s[0] !in multiset(rest);
        InsertDistinct(s[0], rest, o);
      }
    }
  }
}
