/**
 * The three `IComparer<Book>` strategies. Each puts a null first argument
 * first, a null second argument last, and otherwise compares one field:
 * the author (as text), the page count, or the price (ignoring currency).
 */
module Comparators {
  import Ordinal
  import opened Books

  /** `AuthorComparator.Compare`. */
  function AuthorCompare(book1: Book?, book2: Book?): (r: int)
    ensures book1 == null ==> r == -1
    ensures book1 != null && book2 == null ==> r == 1
    ensures book1 != null && book2 != null ==>
            -1 <= r <= 1 && (r == 0 <==> book1.author == book2.author)
  {
    if book1 == null then -1
    else if book2 == null then 1
    else Ordinal.Compare(book1.author, book2.author)
  }

  /** `PagesComparator.Compare`: `int.CompareTo` on the page counts. */
  function PagesCompare(book1: Book?, book2: Book?): (r: int)
    reads book1, book2
    ensures book1 == null ==> r == -1
    ensures book1 != null && book2 == null ==> r == 1
    ensures book1 != null && book2 != null ==>
            && (r == -1 <==> book1.Pages() < book2.Pages())
            && (r == 0 <==> book1.Pages() == book2.Pages())
            && (r == 1 <==> book1.Pages() > book2.Pages())
  {
    if book1 == null then -1
    else if book2 == null then 1
    else if book1.Pages() < book2.Pages() then -1
    else if book1.Pages() == book2.Pages() then 0
    else 1
  }

  /** `PriceComparator.Compare`: `decimal.CompareTo` on the prices; the currencies play no part. */
  function PriceCompare(book1: Book?, book2: Book?): (r: int)
    reads book1, book2
    ensures book1 == null ==> r == -1
    ensures book1 != null && book2 == null ==> r == 1
    ensures book1 != null && book2 != null ==>
            && (r == -1 <==> book1.price < book2.price)
            && (r == 0 <==> book1.price == book2.price)
            && (r == 1 <==> book1.price > book2.price)
  {
    if book1 == null then -1
    else if book2 == null then 1
    else if book1.price < book2.price then -1
    else if book1.price == book2.price then 0
    else 1
  }

  /** Author order on books: the result depends on the two author strings alone. */
  lemma AuthorCompareReadsOnlyAuthor(a: Book, b: Book, c: Book, d: Book)
    requires a.author == c.author && b.author == d.author
    ensures AuthorCompare(a, b) == AuthorCompare(c, d)
  {
  }

  /** Author order on books: swapping flips the sign, and "no later than" is transitive. */
  lemma {:induction false} AuthorCompareIsOrder(a: Book, b: Book, c: Book)
    ensures AuthorCompare(b, a) == -AuthorCompare(a, b)
    ensures AuthorCompare(a, b) <= 0 && AuthorCompare(b, c) <= 0 ==> AuthorCompare(a, c) <= 0
  {
    Ordinal.CompareAntisymmetric(a.author, b.author);
    if AuthorCompare(a, b) <= 0 && AuthorCompare(b, c) <= 0 {
      Ordinal.CompareTransitive(a.author, b.author, c.author);
    }
  }

  /** Page order on books: swapping flips the sign, and "no later than" is transitive. */
  lemma PagesCompareIsOrder(a: Book, b: Book, c: Book)
    ensures PagesCompare(b, a) == -PagesCompare(a, b)
    ensures PagesCompare(a, b) <= 0 && PagesCompare(b, c) <= 0 ==> PagesCompare(a, c) <= 0
  {
  }

  /** Price order on books: swapping flips the sign, and "no later than" is transitive. */
  lemma PriceCompareIsOrder(a: Book, b: Book, c: Book)
    ensures PriceCompare(b, a) == -PriceCompare(a, b)
    ensures PriceCompare(a, b) <= 0 && PriceCompare(b, c) <= 0 ==> PriceCompare(a, c) <= 0
  {
  }

  /** Books whose page count was never set (0) tie with each other and sort before every book with pages. */
  lemma UnsetPagesSortFirst(a: Book, b: Book)
    requires a.Pages() == 0
    requires b.Valid()
    ensures b.Pages() == 0 ==> PagesCompare(a, b) == 0
    ensures b.Pages() > 0 ==> PagesCompare(a, b) == -1 && PagesCompare(b, a) == 1
  {
  }

  /** `SetPrice` refuses negative prices, so an unpriced book sorts no later than any book. */
  lemma UnpricedSortsFirst(a: Book, b: Book)
    requires a.currency.None? && a.Valid() && b.Valid()
    ensures PriceCompare(a, b) <= 0
  {
  }

  /** The comparisons the repository's tests expect. */
  lemma ComparatorExamples(a: Book, b: Book)
    ensures a.author == "ABOBA" && b.author == "BIDON" ==>
            AuthorCompare(a, b) == -1 && AuthorCompare(b, a) == 1
    ensures a.author == b.author ==> AuthorCompare(a, b) == 0
    ensures a.Pages() == 10 && b.Pages() == 10 ==> PagesCompare(a, b) == 0
    ensures a.Pages() == 11 && b.Pages() == 10 ==> PagesCompare(a, b) == 1
    ensures a.Pages() == 10 && b.Pages() == 11 ==> PagesCompare(a, b) == -1
    ensures a.price == 300.0 && b.price == 300.0 ==> PriceCompare(a, b) == 0
    ensures a.price == 300.0 && b.price == 30.0 ==> PriceCompare(a, b) == 1
    ensures a.price == 40.0 && b.price == 300.0 ==> PriceCompare(a, b) == -1
    ensures a.price == 10.0 && b.price == 10.0 ==> PriceCompare(a, b) == 0
  {
    if a.author == "ABOBA" && b.author == "BIDON" {
      assert a.author[0] == 'A' && b.author[0] == 'B';
      assert AuthorCompare(b, a) == 1;
    }
  }

  // Both-null arguments. Each comparator answers -1 for (null, null), so
  // null is not equal to itself and swapping does not flip the sign. The
  // corrected comparators below answer 0 there and agree everywhere else.

  /** As written, the comparators are not reflexive and not antisymmetric at (null, null). */
  lemma NullNullIsNotATie()
    ensures AuthorCompare(null, null) == -1 && AuthorCompare(null, null) != -AuthorCompare(null, null)
    ensures PagesCompare(null, null) == -1 && PagesCompare(null, null) != -PagesCompare(null, null)
    ensures PriceCompare(null, null) == -1 && PriceCompare(null, null) != -PriceCompare(null, null)
  {
  }

  /** Which field a comparator orders by. */
  datatype Field = ByAuthor | ByPages | ByPrice

  /** The comparator for `field`, corrected so that two nulls tie. */
  function CompareBy(field: Field, book1: Book?, book2: Book?): (r: int)
    reads book1, book2
    ensures book1 == null && book2 == null ==> r == 0
    ensures book1 == null && book2 != null ==> r == -1
    ensures book1 != null && book2 == null ==> r == 1
    ensures -1 <= r <= 1
  {
    if book1 == null && book2 == null then 0
    else match field
      case ByAuthor => AuthorCompare(book1, book2)
      case ByPages => PagesCompare(book1, book2)
      case ByPrice => PriceCompare(book1, book2)
  }

  /** The corrected comparators differ from the ones as written only at (null, null). */
  lemma CompareByAgreesOnBooks(field: Field, book1: Book?, book2: Book?)
    requires book1 != null || book2 != null
    ensures CompareBy(field, book1, book2) ==
            match field
            case ByAuthor => AuthorCompare(book1, book2)
            case ByPages => PagesCompare(book1, book2)
            case ByPrice => PriceCompare(book1, book2)
  {
  }

  /**
   * The corrected comparators are total preorders on every input, nulls
   * included: each element ties with itself, swapping flips the sign, and
   * "no later than" is transitive.
   */
  lemma {:induction false} CompareByIsOrder(field: Field, a: Book?, b: Book?, c: Book?)
    ensures CompareBy(field, a, a) == 0
    ensures CompareBy(field, b, a) == -CompareBy(field, a, b)
    ensures CompareBy(field, a, b) <= 0 && CompareBy(field, b, c) <= 0 ==> CompareBy(field, a, c) <= 0
  {
    if a != null && b != null && c != null {
      match field
      case ByAuthor => AuthorCompareIsOrder(a, b, c);
      case ByPages =>
      case ByPrice =>
    } else if a != null && b != null && field == ByAuthor {
      AuthorCompareIsOrder(a, b, a);
    }
  }
}
