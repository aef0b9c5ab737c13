/**
 * Sorting a list of books with one of the comparators, standing in for
 * `List<Book>.Sort(IComparer<Book>)`. Only the outcome is specified: a
 * permutation of the input, ordered by the comparator. The algorithm here
 * (insertion) is not the runtime's, and neither is promised to be stable.
 */
module Sorting {
  import opened Books
  import opened Comparators

  /** Every book sorts no later than the books after it. */
  ghost predicate Sorted(s: seq<Book>, field: Field)
    reads s
  {
    forall i, j :: 0 <= i < j < |s| ==> CompareBy(field, s[i], s[j]) <= 0
  }

  /** A book that sorts no later than every book of a sorted list can go in front of it. */
  lemma SortedCons(y: Book, t: seq<Book>, field: Field)
    requires Sorted(t, field)
    requires forall z :: z in t ==> CompareBy(field, y, z) <= 0
    ensures Sorted([y] + t, field)
  {
    var r := [y] + t;
    forall i, j | 0 <= i < j < |r| ensures CompareBy(field, r[i], r[j]) <= 0 {
      if i > 0 {
        assert r[i] == t[i - 1] && r[j] == t[j - 1];
      } else {
        assert r[j] == t[j - 1] && r[j] in t;
      }
    }
  }

  /** Inserts `x` into a list, before the first book it does not sort after. */
  function Insert(s: seq<Book>, x: Book, field: Field): (r: seq<Book>)
    reads s, x
    ensures multiset(r) == multiset(s) + multiset{x}
  {
    if s == [] then [x]
    else if CompareBy(field, x, s[0]) <= 0 then [x] + s
    else
      assert s == [s[0]] + s[1..];
      [s[0]] + Insert(s[1..], x, field)
  }

  /** Inserting into a sorted list keeps it sorted. */
  lemma {:induction false} InsertKeepsSorted(s: seq<Book>, x: Book, field: Field)
    requires Sorted(s, field)
    ensures Sorted(Insert(s, x, field), field)
  {
    if s == [] {
    } else if CompareBy(field, x, s[0]) <= 0 {
      forall z | z in s ensures CompareBy(field, x, z) <= 0 {
        var j :| 0 <= j < |s| && s[j] == z;
        CompareByIsOrder(field, x, s[0], z);
      }
      SortedCons(x, s, field);
    } else {
      var tail := s[1..];
      var rest := Insert(tail, x, field);
      assert Sorted(tail, field);
      InsertKeepsSorted(tail, x, field);
      CompareByIsOrder(field, x, s[0], x);
      forall y | y in rest ensures CompareBy(field, s[0], y) <= 0 {
        assert y in multiset(rest);
        if y != x {
          assert y in multiset(tail);
          var j :| 0 <= j < |tail| && tail[j] == y;
          assert s[j + 1] == y;
        }
      }
      SortedCons(s[0], rest, field);
    }
  }

  /** Sorts `s` by `field`: the result holds the same books, in comparator order. */
  method SortBooks(s: seq<Book>, field: Field) returns (r: seq<Book>)
    ensures multiset(r) == multiset(s)
    ensures Sorted(r, field)
  {
    r := [];
    for i := 0 to |s|
      invariant multiset(r) == multiset(s[..i])
      invariant Sorted(r, field)
    {
      assert s[..i + 1] == s[..i] + [s[i]];
      InsertKeepsSorted(r, s[i], field);
      r := Insert(r, s[i], field);
    }
    assert s[..|s|] == s;
  }
}
