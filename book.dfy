/**
 * The book entity: four identity strings fixed at construction, and a page
 * count, a price with its currency and a publication status that change in
 * place through guarded setters.
 */
module Books {
  import opened Wrappers
  import Ordinal
  import Dates
  import IsbnVerifier
  import CurrencyValidator

  /**
   * The exception the four-argument constructor throws, if any. Author, title
   * and publisher are tested for null in that order; a null ISBN is
   * dereferenced by the ISBN check; the empty ISBN skips that check.
   */
  function ConstructionCheck(author: Option<string>, title: Option<string>,
                             publisher: Option<string>, isbn: Option<string>): (st: Status)
    ensures st == Threw(ArgumentNullException) <==> author == None || title == None || publisher == None
    ensures st == Threw(NullReferenceException) <==>
            author != None && title != None && publisher != None && isbn == None
    ensures st == Threw(ArgumentException) <==>
            author != None && title != None && publisher != None &&
            isbn != None && !IsbnVerifier.IsValid(isbn.value)
    ensures st == Completed <==>
            author != None && title != None && publisher != None &&
            isbn != None && IsbnVerifier.IsValid(isbn.value)
  {
    if author == None then Threw(ArgumentNullException)
    else if title == None then Threw(ArgumentNullException)
    else if publisher == None then Threw(ArgumentNullException)
    else if isbn == None then Threw(NullReferenceException)
    else if isbn.value == "" then Completed
    else if !IsbnVerifier.IsValid(isbn.value) then Threw(ArgumentException)
    else Completed
  }

  /**
   * The exception `SetPrice` throws, if any: a negative price first, then a
   * null currency, then a currency the ISO validator refuses or rejects.
   */
  function PriceCheck(price: real, currency: Option<string>, isoSymbols: set<string>): (st: Status)
    ensures price < 0.0 ==> st == Threw(ArgumentException)
    ensures st == Threw(ArgumentNullException) <==> price >= 0.0 && currency == None
    ensures st == Completed <==>
            price >= 0.0 && currency != None && currency.value != "" && currency.value in isoSymbols
    ensures st == Completed || st == Threw(ArgumentNullException) || st == Threw(ArgumentException)
  {
    if price < 0.0 then Threw(ArgumentException)
    else if currency == None then Threw(ArgumentNullException)
    else
      match CurrencyValidator.IsValid(currency, isoSymbols)
      case Failure(e) => Threw(e)
      case Success(known) => if known then Completed else Threw(ArgumentException)
  }

  class Book {
    const author: string
    const title: string
    const publisher: string
    const isbn: string

    var totalPages: int
    /** `decimal` is exact; its 28-digit range is not modelled. */
    var price: real
    var currency: Option<string>
    var published: bool
    var datePublished: Dates.DateTime

    /** What construction and the setters guarantee about every book. */
    ghost predicate Valid()
      reads this
    {
      && IsbnVerifier.IsValid(isbn)
      && totalPages >= 0
      && price >= 0.0
      && (currency == None ==> price == 0.0)
      && (currency != None ==> currency.value != "")
    }

    /** The body of the constructor, reached once `ConstructionCheck` has passed. */
    constructor (author: string, title: string, publisher: string, isbn: string)
      requires ConstructionCheck(Some(author), Some(title), Some(publisher), Some(isbn)) == Completed
      ensures Valid()
      ensures this.author == author && this.title == title
      ensures this.publisher == publisher && this.isbn == isbn
      ensures totalPages == 0 && price == 0.0 && currency == None
      ensures !published && datePublished == Dates.MinValue
    {
      this.author := author;
      this.title := title;
      this.publisher := publisher;
      this.isbn := isbn;
      totalPages := 0;
      price := 0.0;
      currency := None;
      published := false;
      datePublished := Dates.MinValue;
    }

    /** `new Book(author, title, publisher, isbn)`: a fresh book, or the exception it throws. */
    static method Create(author: Option<string>, title: Option<string>,
                         publisher: Option<string>, isbn: Option<string>) returns (r: Result<Book>)
      ensures r.Failure? <==> ConstructionCheck(author, title, publisher, isbn) != Completed
      ensures r.Failure? ==> ConstructionCheck(author, title, publisher, isbn) == Threw(r.exception)
      ensures r.Success? ==>
        && fresh(r.value) && r.value.Valid()
        && r.value.author == author.value && r.value.title == title.value
        && r.value.publisher == publisher.value && r.value.isbn == isbn.value
        && r.value.totalPages == 0 && r.value.price == 0.0 && r.value.currency == None
        && !r.value.published
    {
      var st := ConstructionCheck(author, title, publisher, isbn);
      if st.Threw? {
        return Failure(st.exception);
      }
      var book := new Book(author.value, title.value, publisher.value, isbn.value);
      return Success(book);
    }

    /** `new Book(author, title, publisher)`: the same with the empty ISBN. */
    static method CreateWithoutIsbn(author: Option<string>, title: Option<string>,
                                    publisher: Option<string>) returns (r: Result<Book>)
      ensures r.Failure? <==> author == None || title == None || publisher == None
      ensures r.Failure? ==> r.exception == ArgumentNullException
      ensures r.Success? ==>
        && fresh(r.value) && r.value.Valid()
        && r.value.author == author.value && r.value.title == title.value
        && r.value.publisher == publisher.value && r.value.isbn == ""
        && r.value.totalPages == 0 && r.value.price == 0.0 && r.value.currency == None
        && !r.value.published
    {
      r := Create(author, title, publisher, Some(""));
    }

    /** The `Pages` getter: 0 until a count is set, never negative for a valid book. */
    function Pages(): (n: int)
      reads this
      ensures Valid() ==> n >= 0
    {
      totalPages
    }

    /** The `Pages` setter: a count of zero or less throws and leaves the count as it was. */
    method SetPages(value: int) returns (st: Status)
      requires Valid()
      modifies this`totalPages
      ensures Valid()
      ensures value <= 0 ==> st == Threw(ArgumentOutOfRangeException) && totalPages == old(totalPages)
      ensures value > 0 ==> st == Completed && Pages() == value
    {
      if value <= 0 {
        return Threw(ArgumentOutOfRangeException);
      }
      totalPages := value;
      return Completed;
    }

    /** `SetPrice`: price and currency change together, or neither changes. */
    method SetPrice(newPrice: real, newCurrency: Option<string>, isoSymbols: set<string>)
      returns (st: Status)
      requires Valid()
      modifies this`price, this`currency
      ensures Valid()
      ensures st == PriceCheck(newPrice, newCurrency, isoSymbols)
      ensures st == Completed ==> price == newPrice && currency == newCurrency
      ensures st != Completed ==> price == old(price) && currency == old(currency)
    {
      st := PriceCheck(newPrice, newCurrency, isoSymbols);
      if st == Completed {
        price := newPrice;
        currency := newCurrency;
      }
    }

    /** `Publish`: marks the book published and overwrites the date, every time. */
    method Publish(date: Dates.DateTime)
      modifies this`published, this`datePublished
      ensures published && datePublished == date
      ensures GetPublicationDate() == Dates.ShortDate(date)
    {
      published := true;
      datePublished := date;
    }

    /** "NYP" before publication, afterwards the short date of the last `Publish`. */
    function GetPublicationDate(): (text: string)
      reads this
      ensures text == "NYP" <==> !published
      ensures published ==> text == Dates.ShortDate(datePublished)
    {
      if published then Dates.ShortDate(datePublished) else "NYP"
    }

    /** `ToString`: the title, the word "by" between single spaces, the author. */
    function ToString(): (s: string)
      ensures |s| == |title| + 4 + |author|
      ensures s[..|title|] == title
      ensures s[|title|..|title| + 4] == " by "
      ensures s[|title| + 4..] == author
    {
      title + " by " + author
    }

    /** `Equals(Book)`: value equality on the four identity strings; false for null. */
    function EqualsBook(other: Book?): (r: bool)
      ensures r <==> other != null && author == other.author && title == other.title &&
                     publisher == other.publisher && isbn == other.isbn
    {
      other != null && author == other.author && title == other.title &&
      publisher == other.publisher && isbn == other.isbn
    }

    /** `Equals(object)`: `base.Equals` is reference identity, so only the book itself is equal. */
    function EqualsObject(obj: object?): (r: bool)
      ensures r <==> obj == this
    {
      obj is Book && (obj as Book) == this && isbn == (obj as Book).isbn
    }

    /**
     * `GetHashCode`: the per-process seeded `HashCode` combiner applied to the
     * ISBN alone. The combiner is the parameter `hash`.
     */
    function GetHashCode(hash: string -> int): (h: int)
      ensures h == hash(isbn)
    {
      hash(isbn)
    }

    /** `CompareTo(Book)`: -1 for null, otherwise the order of the titles. */
    function CompareTo(other: Book?): (r: int)
      ensures other == null ==> r == -1
      ensures other != null ==> -1 <= r <= 1 && (r == 0 <==> title == other.title)
    {
      if other == null then -1 else Ordinal.Compare(title, other.title)
    }

    /**
     * `CompareTo(object)`: -1 for null; an object that is not a book is
     * dereferenced as null and throws; a book compares by title.
     */
    function CompareToObject(obj: object?): (r: Result<int>)
      ensures obj == null ==> r == Success(-1)
      ensures obj != null && !(obj is Book) ==> r == Failure(NullReferenceException)
      ensures obj is Book ==> r.Success? && r.value == CompareTo(obj as Book)
    {
      if obj == null then Success(-1)
      else if !(obj is Book) then Failure(NullReferenceException)
      else Success(Ordinal.Compare(title, (obj as Book).title))
    }
  }

  /** Value equality is an equivalence relation on books. */
  lemma EqualsBookIsEquivalence(a: Book, b: Book, c: Book)
    ensures a.EqualsBook(a)
    ensures a.EqualsBook(b) <==> b.EqualsBook(a)
    ensures a.EqualsBook(b) && b.EqualsBook(c) ==> a.EqualsBook(c)
  {
  }

  /** Reference equality implies value equality, not the other way round. */
  lemma EqualsObjectImpliesEqualsBook(a: Book, obj: object?)
    requires a.EqualsObject(obj)
    ensures obj is Book && a.EqualsBook(obj as Book)
  {
  }

  /** The hash reads only the ISBN: books with one ISBN hash alike, and so do value-equal books. */
  lemma HashReadsOnlyIsbn(a: Book, b: Book, hash: string -> int)
    ensures a.isbn == b.isbn ==> a.GetHashCode(hash) == b.GetHashCode(hash)
    ensures a.EqualsBook(b) ==> a.GetHashCode(hash) == b.GetHashCode(hash)
  {
  }

  /** Title order: swapping the books flips the sign; no field but the title matters. */
  lemma {:induction false} CompareToByTitleOnly(a: Book, b: Book, c: Book)
    ensures b.CompareTo(a) == -a.CompareTo(b)
    ensures a.title == b.title ==> a.CompareTo(c) == b.CompareTo(c)
  {
    Ordinal.CompareAntisymmetric(a.title, b.title);
  }

  /** `ToString` of a book whose fields are all empty. */
  lemma ToStringEmptyFields(b: Book)
    ensures b.title == "" && b.author == "" ==> b.ToString() == " by "
  {
  }

  /** Texts the repository's tests expect from `ToString`, one field empty or none. */
  lemma ToStringExamples(b: Book)
    ensures b.title == "C# in Depth" && b.author == "Jon Skeet" ==>
            b.ToString() == "C# in Depth by Jon Skeet"
    ensures b.title == "" && b.author == "Jon Skeet" ==> b.ToString() == " by Jon Skeet"
    ensures b.title == "C# in Depth" && b.author == "" ==> b.ToString() == "C# in Depth by "
  {
  }

  /** The title comparisons the repository's tests expect. */
  lemma CompareToExamples(a: Book, b: Book)
    ensures a.title == "C# in Depth" && b.title == "C# in Depth" ==> a.CompareTo(b) == 0
    ensures a.title == "C# in Depth" && b.title == "Some book" ==> a.CompareTo(b) == -1
    ensures a.title == "C# in Depth" && b.title == "C in Depthhhhh" ==> a.CompareTo(b) == 1
  {
    if a.title == "C# in Depth" && b.title == "C in Depthhhhh" {
      var s, t := a.title, b.title;
      assert s[0] == t[0] && s[1..] == "# in Depth" && t[1..] == " in Depthhhhh";
      assert Ordinal.Compare(s[1..], t[1..]) == Ordinal.CompareChar('#', ' ') == 1;
    }
  }
}
