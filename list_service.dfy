/**
 * The in-memory catalogue: a dictionary from integer keys to books, updated in
 * place by `Add`, `Remove` and `Load`, queried by the three field searches and
 * `GetBy`, and saved to a book storage. The dictionary's enumeration order is
 * unspecified, so every query result is stated as a multiset of books.
 */
module ListService {
  import opened Wrappers
  import opened Books
  import opened Comparators
  import opened Storage
  import opened Sorting

  /** A non-empty set of keys has an element. */
  lemma HasElement(s: set<int>)
    requires s != {}
    ensures exists k :: k in s
  {
    if forall k :: k !in s {
      assert false;
    }
  }

  /** A book among the values of a dictionary is held under some key. */
  lemma KeyOfValue(m: map<int, Book>, b: Book)
    requires b in m.Values
    ensures exists k :: k in m && m[k] == b
  {
    if forall k :: k in m ==> m[k] != b {
      assert false;
    }
  }

  /** The books held by a dictionary, one occurrence per key. */
  ghost function ValuesOf(m: map<int, Book>): multiset<Book>
    decreases m.Keys
  {
    if m == map[] then multiset{}
    else
      HasElement(m.Keys);
      var k :| k in m;
      multiset{m[k]} + ValuesOf(m - {k})
  }

  /** Taking any one entry out of a dictionary takes its book out of the multiset of values. */
  lemma {:induction false} ValuesOfRemove(m: map<int, Book>, j: int)
    requires j in m
    ensures ValuesOf(m) == multiset{m[j]} + ValuesOf(m - {j})
    decreases m.Keys
  {
    var k :| k in m && ValuesOf(m) == multiset{m[k]} + ValuesOf(m - {k});
    if k != j {
      var mk, mj := m - {k}, m - {j};
      assert mk - {j} == mj - {k};
      assert mk.Keys < m.Keys && mj.Keys < m.Keys;
      ValuesOfRemove(mk, j);
      ValuesOfRemove(mj, k);
    }
  }

  /** Storing a book under a new key adds one occurrence of it to the values. */
  lemma ValuesOfInsert(m: map<int, Book>, k: int, b: Book)
    requires k !in m
    ensures ValuesOf(m[k := b]) == ValuesOf(m) + multiset{b}
  {
    ValuesOfRemove(m[k := b], k);
    assert m[k := b] - {k} == m;
  }

  /** A book occurs among the values exactly when some key holds it. */
  lemma {:induction false} ValuesOfMembers(m: map<int, Book>, b: Book)
    ensures b in ValuesOf(m) <==> b in m.Values
    decreases m.Keys
  {
    if m != map[] {
      HasElement(m.Keys);
      var k :| k in m;
      ValuesOfRemove(m, k);
      ValuesOfMembers(m - {k}, b);
      assert m.Values == (m - {k}).Values + {m[k]} by {
        forall v | v in m.Values ensures v in (m - {k}).Values + {m[k]} {
          KeyOfValue(m, v);
          var j :| j in m && m[j] == v;
          if j != k {
            assert j in m - {k};
          }
        }
      }
    }
  }

  /** The values of a dictionary number as many as its keys. */
  lemma {:induction false} ValuesOfSize(m: map<int, Book>)
    ensures |ValuesOf(m)| == |m|
    decreases m.Keys
  {
    if m != map[] {
      HasElement(m.Keys);
      var k :| k in m;
      ValuesOfRemove(m, k);
      ValuesOfSize(m - {k});
      assert (m - {k}).Keys == m.Keys - {k};
    }
  }

  /**
   * `Dictionary.ContainsValue` with the default comparer, which is
   * `Book.Equals(Book)`: some stored book is value-equal to `book`. In
   * particular a book that is itself stored is found.
   */
  function ContainsValue(m: map<int, Book>, book: Book): (r: bool)
    ensures r <==> exists b :: b in m.Values && b.EqualsBook(book)
    ensures book in m.Values ==> r
  {
    KeysHoldingEqual(m, book);
    exists k :: k in m && m[k].EqualsBook(book)
  }

  /** Scanning the keys for a value-equal book is scanning the values for one. */
  lemma KeysHoldingEqual(m: map<int, Book>, book: Book)
    ensures (exists k :: k in m && m[k].EqualsBook(book)) <==>
            (exists b :: b in m.Values && b.EqualsBook(book))
  {
    if exists b :: b in m.Values && b.EqualsBook(book) {
      var b :| b in m.Values && b.EqualsBook(book);
      KeyOfValue(m, b);
    }
  }

  /** No two entries hold value-equal books: what `Add` enforces. */
  ghost predicate ValuesDistinct(m: map<int, Book>) {
    forall k1, k2 :: k1 in m && k2 in m && k1 != k2 ==> !m[k1].EqualsBook(m[k2])
  }

  /** The keys are exactly 0, 1, ..., n-1: what a run of successful `Add`s produces. */
  ghost predicate DenseKeys(m: map<int, Book>) {
    forall k :: k in m <==> 0 <= k < |m|
  }

  /** The three text fields a search can test. */
  datatype TextField = AuthorField | TitleField | PublisherField

  function TextOf(b: Book, field: TextField): string {
    match field
    case AuthorField => b.author
    case TitleField => b.title
    case PublisherField => b.publisher
  }

  /**
   * The entries whose field equals `value` under `string.Equals`: ordinal
   * equality, and never equal to a null argument.
   */
  function Matching(m: map<int, Book>, field: TextField, value: Option<string>): map<int, Book> {
    map k | k in m && Some(TextOf(m[k], field)) == value :: m[k]
  }

  /** A search result holds a book exactly when some entry holds that book with a matching field. */
  lemma MatchingMembers(m: map<int, Book>, field: TextField, value: Option<string>, b: Book)
    ensures b in ValuesOf(Matching(m, field, value)) <==>
            value == Some(TextOf(b, field)) && b in m.Values
  {
    var found := Matching(m, field, value);
    ValuesOfMembers(found, b);
    if b in m.Values && value == Some(TextOf(b, field)) {
      KeyOfValue(m, b);
      var k :| k in m && m[k] == b;
      assert k in found;
    }
  }

  /** Dropping one entry from the dictionary drops it from the search result, if it was there. */
  lemma MatchingRemove(m: map<int, Book>, field: TextField, value: Option<string>, k: int)
    requires k in m
    ensures Some(TextOf(m[k], field)) == value ==>
            Matching(m - {k}, field, value) == Matching(m, field, value) - {k}
    ensures Some(TextOf(m[k], field)) != value ==>
            Matching(m - {k}, field, value) == Matching(m, field, value)
  {
  }

  /** Searching the null string finds nothing. */
  lemma MatchingNull(m: map<int, Book>, field: TextField)
    ensures ValuesOf(Matching(m, field, None)) == multiset{}
  {
    assert Matching(m, field, None) == map[];
  }

  /** The dictionary that holds the books of `s` under the keys 0, 1, 2, ... */
  function Indexed(s: seq<Book>): (m: map<int, Book>)
    ensures forall i :: i in m <==> 0 <= i < |s|
  {
    map i | 0 <= i < |s| :: s[i]
  }

  /** Storing a list under the keys 0, 1, 2, ... keeps every book of it, with its multiplicity. */
  lemma {:induction false} ValuesOfIndexed(s: seq<Book>)
    ensures ValuesOf(Indexed(s)) == multiset(s)
  {
    if s != [] {
      var n := |s| - 1;
      var prefix := s[..n];
      ValuesOfIndexed(prefix);
      assert Indexed(s) == Indexed(prefix)[n := s[n]];
      ValuesOfInsert(Indexed(prefix), n, s[n]);
      assert s == prefix + [s[n]];
    }
  }

  /**
   * The first of the keys `from`, `from + 1`, ..., `count - 1` that `m`
   * already uses, or `count` when none is used: where `Load` stops.
   */
  function FirstUsedKey(m: map<int, Book>, count: nat, from: nat): (n: nat)
    requires from <= count
    ensures from <= n <= count
    ensures forall i :: from <= i < n ==> i !in m
    ensures n < count ==> n in m
    decreases count - from
  {
    if from == count then count
    else if from in m then from
    else FirstUsedKey(m, count, from + 1)
  }

  class BookListService {
    /** `BookList`: the dictionary from keys to books. */
    var bookList: map<int, Book>

    constructor ()
      ensures bookList == map[]
    {
      bookList := map[];
    }

    /** `isEmpty`: true exactly when the dictionary has no entries. */
    function IsEmpty(): (r: bool)
      reads this
      ensures r <==> bookList == map[]
    {
      |bookList| == 0
    }

    /**
     * `Add`: refuses a book value-equal to a stored one with a plain
     * exception; otherwise stores it under the current entry count, which
     * `Dictionary.Add` refuses when that key is still in use.
     */
    method Add(book: Book) returns (st: Status)
      modifies this
      ensures ContainsValue(old(bookList), book) ==>
              st == Threw(PlainException) && bookList == old(bookList)
      ensures !ContainsValue(old(bookList), book) && |old(bookList)| in old(bookList) ==>
              st == Threw(DuplicateKeyException) && bookList == old(bookList)
      ensures !ContainsValue(old(bookList), book) && |old(bookList)| !in old(bookList) ==>
              st == Completed && bookList == old(bookList)[|old(bookList)| := book]
      ensures ValuesDistinct(old(bookList)) ==> ValuesDistinct(bookList)
      ensures DenseKeys(old(bookList)) ==> DenseKeys(bookList)
      ensures DenseKeys(old(bookList)) && !ContainsValue(old(bookList), book) ==> st == Completed
    {
      if ContainsValue(bookList, book) {
        return Threw(PlainException);
      }
      var key := |bookList|;
      if key in bookList {
        return Threw(DuplicateKeyException);
      }
      bookList := bookList[key := book];
      assert bookList.Keys == old(bookList).Keys + {key};
      return Completed;
    }

    /**
     * `Remove`: a silent no-op on an empty catalogue; a plain exception when
     * no stored book is value-equal to `book`; otherwise deletes one entry
     * that holds this very object, and nothing when only a value-equal copy
     * is stored.
     */
    method Remove(book: Book) returns (st: Status)
      modifies this
      ensures old(bookList) == map[] ==> st == Completed && bookList == old(bookList)
      ensures old(bookList) != map[] && !ContainsValue(old(bookList), book) ==>
              st == Threw(PlainException) && bookList == old(bookList)
      ensures old(bookList) != map[] && ContainsValue(old(bookList), book) ==> st == Completed
      ensures book !in old(bookList).Values ==> bookList == old(bookList)
      ensures old(bookList) != map[] && book in old(bookList).Values ==>
              exists k :: k in old(bookList) && old(bookList)[k] == book && bookList == old(bookList) - {k}
      ensures ValuesDistinct(old(bookList)) ==> ValuesDistinct(bookList)
    {
      if |bookList| == 0 {
        return Completed;
      }
      if !ContainsValue(bookList, book) {
        assert book !in bookList.Values by {
          if book in bookList.Values {
            KeyOfValue(bookList, book);
          }
        }
        return Threw(PlainException);
      }
      var unvisited := bookList.Keys;
      while unvisited != {}
        invariant unvisited <= bookList.Keys
        invariant bookList == old(bookList)
        invariant forall k :: k in bookList && k !in unvisited ==> bookList[k] != book
        decreases unvisited
      {
        HasElement(unvisited);
        var k :| k in unvisited;
        if bookList[k] == book {
          bookList := bookList - {k};
          return Completed;
        }
        unvisited := unvisited - {k};
      }
      assert book !in bookList.Values by {
        if book in bookList.Values {
          KeyOfValue(bookList, book);
        }
      }
      return Completed;
    }

    /** The `foreach` over the dictionary that copies its books into a new list. */
    method Snapshot() returns (books: seq<Book>)
      ensures multiset(books) == ValuesOf(bookList)
    {
      books := [];
      var unvisited := bookList;
      while unvisited != map[]
        invariant multiset(books) + ValuesOf(unvisited) == ValuesOf(bookList)
        decreases unvisited.Keys
      {
        HasElement(unvisited.Keys);
        var k :| k in unvisited;
        ValuesOfRemove(unvisited, k);
        books := books + [unvisited[k]];
        unvisited := unvisited - {k};
      }
    }

    /** The shared loop of the three searches: every book whose field equals `value`. */
    method FindWhere(field: TextField, value: Option<string>) returns (found: seq<Book>)
      ensures multiset(found) == ValuesOf(Matching(bookList, field, value))
      ensures forall b :: b in found ==> value == Some(TextOf(b, field))
    {
      found := [];
      var unvisited := bookList;
      while unvisited != map[]
        invariant multiset(found) + ValuesOf(Matching(unvisited, field, value)) ==
                  ValuesOf(Matching(bookList, field, value))
        invariant forall b :: b in found ==> value == Some(TextOf(b, field))
        decreases unvisited.Keys
      {
        HasElement(unvisited.Keys);
        var k :| k in unvisited;
        var b := unvisited[k];
        var before := Matching(unvisited, field, value);
        if Some(TextOf(b, field)) == value {
          ValuesOfRemove(before, k);
          found := found + [b];
        }
        MatchingRemove(unvisited, field, value, k);
        unvisited := unvisited - {k};
      }
    }

    /** `FindByAuthor`: every stored book whose author equals `author`, once per entry. */
    method FindByAuthor(author: Option<string>) returns (found: seq<Book>)
      ensures multiset(found) == ValuesOf(Matching(bookList, AuthorField, author))
      ensures forall b :: b in found ==> author == Some(b.author)
    {
      found := FindWhere(AuthorField, author);
    }

    /** `FindByTitle`: every stored book whose title equals `title`, once per entry. */
    method FindByTitle(title: Option<string>) returns (found: seq<Book>)
      ensures multiset(found) == ValuesOf(Matching(bookList, TitleField, title))
      ensures forall b :: b in found ==> title == Some(b.title)
    {
      found := FindWhere(TitleField, title);
    }

    /** `FindByPublisher`: every stored book whose publisher equals `publisher`, once per entry. */
    method FindByPublisher(publisher: Option<string>) returns (found: seq<Book>)
      ensures multiset(found) == ValuesOf(Matching(bookList, PublisherField, publisher))
      ensures forall b :: b in found ==> publisher == Some(b.publisher)
    {
      found := FindWhere(PublisherField, publisher);
    }

    /**
     * `GetBy`: all stored books, sorted by the author, pages or price
     * comparator for the names "Author", "Pages" and "Price", and in
     * dictionary order for any other name.
     */
    method GetBy(fieldName: string) returns (books: seq<Book>)
      ensures multiset(books) == ValuesOf(bookList)
      ensures fieldName == "Author" ==> Sorted(books, ByAuthor)
      ensures fieldName == "Pages" ==> Sorted(books, ByPages)
      ensures fieldName == "Price" ==> Sorted(books, ByPrice)
    {
      books := Snapshot();
      if fieldName == "Author" {
        books := SortBooks(books, ByAuthor);
      } else if fieldName == "Pages" {
        books := SortBooks(books, ByPages);
      } else if fieldName == "Price" {
        books := SortBooks(books, ByPrice);
      }
    }

    /**
     * `Load`: inserts the storage's books under the keys 0, 1, 2, ... without
     * any value check. At the first key already in use `Dictionary.Add`
     * throws; the books inserted before it stay.
     */
    method Load(storage: BookStorage) returns (st: Status)
      modifies this
      ensures var stop := FirstUsedKey(old(bookList), |storage.books|, 0);
              && bookList == old(bookList) + Indexed(storage.books[..stop])
              && st == if stop < |storage.books| then Threw(DuplicateKeyException) else Completed
    {
      var books := storage.GetBooks();
      var count := 0;
      while count < |books|
        invariant 0 <= count <= |books|
        invariant forall i :: 0 <= i < count ==> i !in old(bookList)
        invariant bookList == old(bookList) + Indexed(books[..count])
      {
        if count in bookList {
          return Threw(DuplicateKeyException);
        }
        assert Indexed(books[..count + 1]) == Indexed(books[..count])[count := books[count]];
        bookList := bookList[count := books[count]];
        count := count + 1;
      }
      assert books[..count] == books;
      return Completed;
    }

    /** `Save`: hands every stored book to the storage, which appends them. */
    method Save(storage: BookStorage)
      modifies storage
      ensures |storage.books| == |old(storage.books)| + |bookList|
      ensures storage.books[..|old(storage.books)|] == old(storage.books)
      ensures multiset(storage.books[|old(storage.books)|..]) == ValuesOf(bookList)
    {
      var books := Snapshot();
      ValuesOfSize(bookList);
      storage.AddBooks(books);
      assert storage.books[|old(storage.books)|..] == books;
    }

    // Keys after a removal. `Add` stores a book under the entry count, but
    // once a book other than the last one is removed the count names a key
    // that is still in use, and `Dictionary.Add` throws although the book is
    // new. `NextFreeKey` and `AddWithFreshKey` give the key the count was
    // evidently meant to give: one past every key in use.

    /** One more than the largest key in use, or 0 for an empty dictionary. */
    method NextFreeKey() returns (key: int)
      ensures key !in bookList && forall k :: k in bookList ==> k < key
      ensures DenseKeys(bookList) ==> key == |bookList|
    {
      key := 0;
      var unvisited := bookList.Keys;
      while unvisited != {}
        invariant unvisited <= bookList.Keys
        invariant forall k :: k in bookList && k !in unvisited ==> k < key
        invariant key == 0 || key - 1 in bookList
        decreases unvisited
      {
        HasElement(unvisited);
        var k :| k in unvisited;
        if k >= key {
          key := k + 1;
        }
        unvisited := unvisited - {k};
      }
      if DenseKeys(bookList) && bookList != map[] {
        assert |bookList| - 1 in bookList;
      }
    }

    /** `Add` with the key taken from `NextFreeKey`: a book that is not stored yet is always added. */
    method AddWithFreshKey(book: Book) returns (st: Status)
      modifies this
      ensures ContainsValue(old(bookList), book) ==>
              st == Threw(PlainException) && bookList == old(bookList)
      ensures !ContainsValue(old(bookList), book) ==>
              && st == Completed
              && (exists key :: key !in old(bookList) && bookList == old(bookList)[key := book])
              && ValuesOf(bookList) == ValuesOf(old(bookList)) + multiset{book}
      ensures DenseKeys(old(bookList)) && !ContainsValue(old(bookList), book) ==>
              bookList == old(bookList)[|old(bookList)| := book]
      ensures ValuesDistinct(old(bookList)) ==> ValuesDistinct(bookList)
    {
      if ContainsValue(bookList, book) {
        return Threw(PlainException);
      }
      var key := NextFreeKey();
      ValuesOfInsert(bookList, key, book);
      bookList := bookList[key := book];
      return Completed;
    }
  }
}

/**
 * Client scenarios over the catalogue: the key collision after a removal,
 * its correction, and the save/load round trip.
 */
module ListServiceScenarios {
  import opened Wrappers
  import opened Books
  import opened Storage
  import opened ListService

  /** As written: add a, add b, remove a, add c throws, because c gets key 1, still b's. */
  method AddAfterRemoveCollides(a: Book, b: Book, c: Book) returns (st: Status)
    requires !a.EqualsBook(b) && !a.EqualsBook(c) && !b.EqualsBook(c)
    ensures st == Threw(DuplicateKeyException)
  {
    var service := new BookListService();
    var added := service.Add(a);
    added := service.Add(b);
    assert service.bookList == map[0 := a, 1 := b];
    assert a != b && service.bookList[0] == a;
    var removed := service.Remove(a);
    assert service.bookList == map[1 := b];
    st := service.Add(c);
  }

  /** Corrected, first steps: add a, add b, remove a leaves b under key 1. */
  method AddTwoRemoveFirst(a: Book, b: Book) returns (service: BookListService)
    requires !a.EqualsBook(b)
    ensures fresh(service) && service.bookList == map[1 := b]
  {
    service := new BookListService();
    var added := service.AddWithFreshKey(a);
    assert service.bookList == map[0 := a];
    added := service.AddWithFreshKey(b);
    assert service.bookList == map[0 := a, 1 := b];
    assert a != b && service.bookList[0] == a;
    var removed := service.Remove(a);
  }

  /** Corrected: the same steps with `AddWithFreshKey` succeed and keep b and c. */
  method AddAfterRemoveWithFreshKey(a: Book, b: Book, c: Book) returns (st: Status, books: multiset<Book>)
    requires !a.EqualsBook(b) && !a.EqualsBook(c) && !b.EqualsBook(c)
    ensures st == Completed && books == multiset{b, c}
  {
    var service := AddTwoRemoveFirst(a, b);
    assert !ContainsValue(service.bookList, c);
    st := service.AddWithFreshKey(c);
    ValuesOfInsert(map[], 1, b);
    var seen := service.Snapshot();
    books := multiset(seen);
  }

  /**
   * Saving a catalogue into an empty storage and loading that storage into an
   * empty catalogue succeeds and yields the same books, under dense keys.
   */
  method SaveThenLoad(service: BookListService) returns (copy: BookListService, st: Status)
    ensures st == Completed
    ensures ValuesOf(copy.bookList) == ValuesOf(service.bookList)
    ensures DenseKeys(copy.bookList)
  {
    var storage := new BookStorage();
    service.Save(storage);
    copy := new BookListService();
    st := copy.Load(storage);
    ValuesOfIndexed(storage.books);
    assert storage.books[..|storage.books|] == storage.books;
    assert copy.bookList == Indexed(storage.books);
    ValuesOfSize(copy.bookList);
  }
}
