/**
 * The reference book storage: an append-only list of books, read and
 * extended through `GetBooks` and `AddBooks`.
 */
module Storage {
  import opened Books

  class BookStorage {
    /** The stored books, in the order they were appended. */
    var books: seq<Book>

    /** A new storage holds no books. */
    constructor ()
      ensures books == []
    {
      books := [];
    }

    /** `isEmpty`: true exactly when nothing has been appended. */
    function IsEmpty(): (r: bool)
      reads this
      ensures r <==> books == []
    {
      |books| == 0
    }

    /** `GetBooks`: every stored book, in append order. */
    function GetBooks(): (r: seq<Book>)
      reads this
      ensures |r| == |books| && forall i :: 0 <= i < |r| ==> r[i] == books[i]
    {
      books
    }

    /** `AddBooks`: appends the given books, in their order, after the stored ones. */
    method AddBooks(items: seq<Book>)
      modifies this
      ensures books == old(books) + items
      ensures IsEmpty() <==> old(IsEmpty()) && items == []
    {
      for i := 0 to |items|
        invariant books == old(books) + items[..i]
      {
        books := books + [items[i]];
      }
      assert items[..|items|] == items;
    }
  }
}
