/**
 * The dashboard's list of active loans: the open-loan query behind `loadLoans` and the
 * client-side re-sort `sortedLoans` by loan date, newest or oldest first.
 */
module LoanList {
  import opened Inventory
  import opened Seqs

  /** The sort toggle; the comparator treats every value other than "newest" as oldest-first. */
  datatype SortOrder = Newest | Oldest

  /** `.eq("returned", false)`. */
  predicate IsOpen(l: Loan)
  {
    !l.returned
  }

  /** The comparator `newest ? tb - ta : ta - tb` is at most zero: `a` may stay ahead of `b`. */
  predicate InOrder(order: SortOrder, a: Loan, b: Loan)
  {
    match order
    case Newest => b.loanDate - a.loanDate <= 0
    case Oldest => a.loanDate - b.loanDate <= 0
  }

  ghost predicate Sorted(order: SortOrder, s: seq<Loan>)
  {
    forall i, j :: 0 <= i < j < |s| ==> InOrder(order, s[i], s[j])
  }

  /** A sorted list stays sorted when an element that may precede all of it is put in front. */
  lemma SortedCons(order: SortOrder, x: Loan, s: seq<Loan>)
    requires Sorted(order, s)
    requires forall y :: y in multiset(s) ==> InOrder(order, x, y)
    ensures Sorted(order, [x] + s)
  {
    var r := [x] + s;
    forall i, j | 0 <= i < j < |r| ensures InOrder(order, r[i], r[j]) {
      assert r[j] == s[j - 1];
      if i > 0 {
        assert r[i] == s[i - 1];
      } else {
        assert s[j - 1] in multiset(s);
      }
    }
  }

  /** Inserts `x` into a sorted list ahead of the first element it may precede. */
  function Insert(order: SortOrder, x: Loan, s: seq<Loan>): (r: seq<Loan>)
    requires Sorted(order, s)
    ensures Sorted(order, r)
    ensures multiset(r) == multiset(s) + multiset{x}
    decreases |s|
  {
    if s == [] then [x]
    else if InOrder(order, x, s[0]) then
      assert forall y :: y in multiset(s) ==> InOrder(order, x, y) by {
        forall y | y in multiset(s) ensures InOrder(order, x, y) {
          var k :| 0 <= k < |s| && s[k] == y;
          if k > 0 {
            assert InOrder(order, s[0], s[k]);
          }
        }
      }
      SortedCons(order, x, s);
      [x] + s
    else
      assert s == [s[0]] + s[1..];
      var rest := Insert(order, x, s[1..]);
      assert forall y :: y in multiset(rest) ==> InOrder(order, s[0], y) by {
        forall y | y in multiset(rest) ensures InOrder(order, s[0], y) {
          if y != x {
            assert y in multiset(s[1..]);
            var k :| 0 <= k < |s[1..]| && s[1..][k] == y;
            assert InOrder(order, s[0], s[k + 1]);
          }
        }
      }
      SortedCons(order, s[0], rest);
      [s[0]] + rest
  }

  /** A stable sort of the snapshot by loan date in the given direction (`[...loans].sort(cmp)`). */
  function SortLoans(s: seq<Loan>, order: SortOrder): (r: seq<Loan>)
    ensures Sorted(order, r)
    ensures multiset(r) == multiset(s)
    ensures |r| == |s|
    decreases |s|
  {
    if s == [] then []
    else
      assert s == [s[0]] + s[1..];
      Insert(order, s[0], SortLoans(s[1..], order))
  }

  /**
   * `loadLoans`: the open loans of the table, newest first. Rows with equal dates keep their
   * table order.
   */
  function LoadLoans(loans: seq<Loan>): (r: seq<Loan>)
    ensures forall l :: l in r <==> l in loans && !l.returned
    ensures multiset(r) == multiset(Filter(loans, IsOpen))
    ensures Sorted(Newest, r)
  {
    var open := Filter(loans, IsOpen);
    var r := SortLoans(open, Newest);
    assert forall l :: l in r <==> l in multiset(open);
    r
  }
}
