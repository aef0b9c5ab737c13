# Book catalogue model

A Dafny model of the `oop-class-book` library: the `Book` entity with its
guarded setters, value equality, hash and title order; the ISBN shape check
and the ISO currency check it relies on; the author, pages and price
comparators; the append-only `BookStorage`; and `BookListService`, a
dictionary of books keyed by integers with add, remove, three field searches,
a sorted listing and save/load through a storage.

Layout, one module per source component:

- `wrappers.dfy` (`Wrappers`): `Option` for nullable strings, `Status` and
  `Result` for operations that may throw, and the exception kinds thrown.
- `ordinal.dfy` (`Ordinal`): the string order used by `String.Compare` and
  `string.CompareTo`, with its order laws.
- `dates.dfy` (`Dates`): `DateTime` as a calendar date plus ticks, and its
  invariant-culture short date `MM/dd/yyyy`.
- `isbn_verifier.dfy` (`IsbnVerifier`): the length switch and the two
  unanchored regular expressions, with `\d` as the Unicode decimal digits.
- `currency_validator.dfy` (`CurrencyValidator`): the ISO currency check.
- `book.dfy` (`Books`): class `Book`; fields the source updates in place are
  `var`s, read-only properties are `const`s; each setter is a method whose
  `Status` result says which exception, if any, it throws.
- `comparators.dfy` (`Comparators`): the three `IComparer<Book>` classes as
  functions, and the corrected comparator `CompareBy` used for sorting.
- `sorting.dfy` (`Sorting`): `List<Book>.Sort` with a comparator.
- `book_storage.dfy` (`Storage`): class `BookStorage`.
- `list_service.dfy` (`ListService`, `ListServiceScenarios`): class
  `BookListService` over a `map<int, Book>` field, and client scenarios.

The dictionary's enumeration order is unspecified, so every result the
service builds by enumerating it (searches, `GetBy`, `Save`) is stated as a
multiset of books: `ValuesOf(m)` holds each stored book once per key.

Where the code and its description disagree, the model follows the code:

- `Equals(object)` is reference identity (it calls `base.Equals`), not value
  equality on the ISBN.
- A null ISBN reaches `isbn.Length` and throws `NullReferenceException`, not
  `ArgumentNullException`.
- `Remove` deletes an entry only when it holds the very object passed
  (`==` on references); when only a value-equal copy is stored, the check
  passes and nothing is removed.
- `Load` inserts under keys 0, 1, 2, ... whatever is already stored, with no
  value check; the first key in use throws and the books inserted before it
  stay, so `Load` is not all-or-nothing.
- `Add` uses the entry count as key, which is not always a free key (see
  Findings).
- `Publish` overwrites the date on every call, although its comment speaks
  of publishing only a book not yet published.

## Model

| member | source | states |
|---|---|---|
| Ordinal.Compare | oop-class-book/BookClass/Book.cs:202 | the result is -1, 0 or 1, and 0 exactly when the strings are equal |
| Ordinal.CompareAntisymmetric | oop-class-book/BookClass/Book.cs:202 | swapping the strings flips the sign of the comparison |
| Ordinal.CompareTransitive | oop-class-book/BookClass/AuthorComparator.cs:25 | "sorts no later than" is transitive |
| Ordinal.CompareStrictTransitive | oop-class-book/BookClass/AuthorComparator.cs:25 | "sorts strictly before" is transitive |
| Dates.ShortDate | oop-class-book/BookClass/Book.cs:130 | the short date is ten characters with slashes at positions 2 and 5 |
| Dates.PaddedRoundTrip | oop-class-book/BookClass/Book.cs:130 | reading back a zero-padded number gives the number when it fits the width |
| Dates.ShortDateRoundTrip | oop-class-book/BookClass/Book.cs:130 | year, month and day can be read back from the short date |
| Dates.ShortDateSameDay | oop-class-book/BookClass/Book.cs:130 | two dates print alike exactly when they fall on the same day |
| IsbnVerifier.DecimalDigitBasics | oop-class-book/VerificationService/IsbnVerifier.cs:19-20 | `\d` accepts every ASCII digit and rejects the hyphen |
| IsbnVerifier.FullWidthMatch | oop-class-book/VerificationService/IsbnVerifier.cs:25-26 | when the pattern is as wide as the string, an unanchored match is a match at position 0 |
| IsbnVerifier.Isbn10PatternIsShape | oop-class-book/VerificationService/IsbnVerifier.cs:19 | the ISBN-10 pattern matches a 13-character string exactly when hyphens sit at 1, 5 and 11 and digits elsewhere |
| IsbnVerifier.Isbn13PatternIsShape | oop-class-book/VerificationService/IsbnVerifier.cs:20 | the ISBN-13 pattern matches a 17-character string exactly when hyphens sit at 3, 5, 9 and 15 and digits elsewhere |
| IsbnVerifier.IsValid | oop-class-book/VerificationService/IsbnVerifier.cs:17-30 | valid exactly when empty, or 13 characters of ISBN-10 shape, or 17 characters of ISBN-13 shape |
| IsbnVerifier.LastDigitIsFree | oop-class-book/VerificationService/IsbnVerifier.cs:17-30 | no checksum: replacing the last digit of a valid ISBN by any digit keeps it valid |
| IsbnVerifier.AcceptedExamples | oop-class-book/VerificationService.Tests/VerificationService.Tests.cs:27-39 | the empty string and the tests' ISBN-10 and ISBN-13 strings are valid |
| IsbnVerifier.RejectedExamples | oop-class-book/VerificationService.Tests/VerificationService.Tests.cs:41-48 | the tests' misgrouped and wrong-length strings are invalid |
| CurrencyValidator.IsValid | oop-class-book/VerificationService/IsoCurrencyValidator.cs:19-45 | null or empty throws ArgumentException; otherwise true exactly when some region has that ISO symbol |
| Books.ConstructionCheck | oop-class-book/BookClass/Book.cs:39-57 | null author, title or publisher throws ArgumentNullException; then a null ISBN throws NullReferenceException; an invalid ISBN throws ArgumentException; each case exactly |
| Books.PriceCheck | oop-class-book/BookClass/Book.cs:141-157 | a negative price throws ArgumentException first; a null currency ArgumentNullException; success exactly for a non-negative price and a known non-empty symbol |
| Books.Book.constructor | oop-class-book/BookClass/Book.cs:39-57 | a book built from checked arguments keeps them, has no pages, price or currency, is unpublished and valid |
| Books.Book.Create | oop-class-book/BookClass/Book.cs:39-57 | construction fails exactly when the check throws, with that exception; otherwise a fresh valid book with the given fields |
| Books.Book.CreateWithoutIsbn | oop-class-book/BookClass/Book.cs:26-29 | fails with ArgumentNullException exactly when a field is null; otherwise a fresh valid book with the empty ISBN |
| Books.Book.Pages | oop-class-book/BookClass/Book.cs:80 | the page count of a valid book is never negative (0 until a count is set) |
| Books.Book.SetPages | oop-class-book/BookClass/Book.cs:78-90 | a count of zero or less throws ArgumentOutOfRangeException and keeps the count; a positive count is stored; validity is kept |
| Books.Book.SetPrice | oop-class-book/BookClass/Book.cs:141-160 | throws what the price check says; price and currency change together on success and neither changes otherwise; validity is kept |
| Books.Book.Publish | oop-class-book/BookClass/Book.cs:112-116 | the book is published with the given date, and its publication text is that date's short form |
| Books.Book.GetPublicationDate | oop-class-book/BookClass/Book.cs:128-131 | "NYP" exactly when unpublished; otherwise the short date of the recorded date |
| Books.Book.ToString | oop-class-book/BookClass/Book.cs:122 | the title, then " by ", then the author, position by position |
| Books.Book.EqualsBook | oop-class-book/BookClass/Book.cs:175-180 | true exactly for a non-null book with the same author, title, publisher and ISBN |
| Books.Book.EqualsObject | oop-class-book/BookClass/Book.cs:165-170 | true exactly for the book itself |
| Books.Book.GetHashCode | oop-class-book/BookClass/Book.cs:185-190 | the combiner applied to the ISBN alone; `HashReadsOnlyIsbn` gives value-equal books equal hashes |
| Books.Book.CompareTo | oop-class-book/BookClass/Book.cs:195-203 | -1 for null; otherwise -1, 0 or 1, and 0 exactly when the titles are equal |
| Books.Book.CompareToObject | oop-class-book/BookClass/Book.cs:208-218 | -1 for null; a non-book throws NullReferenceException; a book compares as `CompareTo` |
| Books.EqualsBookIsEquivalence | oop-class-book/BookClass/Book.cs:175-180 | value equality is reflexive, symmetric and transitive |
| Books.EqualsObjectImpliesEqualsBook | oop-class-book/BookClass/Book.cs:165-180 | reference equality implies value equality |
| Books.HashReadsOnlyIsbn | oop-class-book/BookClass/Book.cs:185-190 | books with one ISBN hash alike, so value-equal books hash alike |
| Books.CompareToByTitleOnly | oop-class-book/BookClass/Book.cs:195-203 | swapping two books flips the sign; books with one title compare alike with any third |
| Books.ToStringEmptyFields | oop-class-book/BookClass.Tests/BookTests.cs:33-35 | empty fields give " by " |
| Books.ToStringExamples | oop-class-book/BookClass.Tests/BookTests.cs:145-149 | "C# in Depth by Jon Skeet", " by Jon Skeet" and "C# in Depth by " for the tests' three books |
| Books.CompareToExamples | oop-class-book/BookClass.Tests/BookTests.cs:176-183 | the tests' three title comparisons give 0, -1 and 1 |
| Comparators.AuthorCompare | oop-class-book/BookClass/AuthorComparator.cs:13-26 | null first argument -1, null second 1; otherwise -1, 0 or 1, and 0 exactly when the authors are equal |
| Comparators.PagesCompare | oop-class-book/BookClass/PagesComparator.cs:13-26 | null first argument -1, null second 1; otherwise the sign of the page-count difference |
| Comparators.PriceCompare | oop-class-book/BookClass/PriceComparator.cs:13-26 | null first argument -1, null second 1; otherwise the sign of the price difference, currency ignored |
| Comparators.AuthorCompareReadsOnlyAuthor | oop-class-book/BookClass/AuthorComparator.cs:25 | books with the same authors compare alike |
| Comparators.AuthorCompareIsOrder | oop-class-book/BookClass/AuthorComparator.cs:13-26 | on books, swapping flips the sign and "no later than" is transitive |
| Comparators.PagesCompareIsOrder | oop-class-book/BookClass/PagesComparator.cs:13-26 | on books, swapping flips the sign and "no later than" is transitive |
| Comparators.PriceCompareIsOrder | oop-class-book/BookClass/PriceComparator.cs:13-26 | on books, swapping flips the sign and "no later than" is transitive |
| Comparators.UnsetPagesSortFirst | oop-class-book/BookClass/PagesComparator.cs:25 | a book whose page count was never set ties with another such book and sorts before any book with pages |
| Comparators.UnpricedSortsFirst | oop-class-book/BookClass/PriceComparator.cs:25 | a book never priced sorts no later than any valid book |
| Comparators.ComparatorExamples | oop-class-book/BookClass.Tests/BookTests.cs:185-214 | all ten test cases: authors equal 0, "ABOBA"/"BIDON" -1 and 1; pages (10,10) 0, (11,10) 1, (10,11) -1; prices (300,300) 0, (300,30) 1, (40,300) -1, (10,10) 0 whatever the currencies |
| Comparators.NullNullIsNotATie | oop-class-book/BookClass/AuthorComparator.cs:15-18 | each comparator answers -1 for two nulls, so it is neither reflexive nor antisymmetric there |
| Comparators.CompareBy | oop-class-book/BookClass/AuthorComparator.cs:13-26 | two nulls tie, a null sorts first, the result is -1, 0 or 1 |
| Comparators.CompareByAgreesOnBooks | oop-class-book/BookClass/AuthorComparator.cs:13-26 | the corrected comparator agrees with the written one whenever an argument is a book |
| Comparators.CompareByIsOrder | oop-class-book/BookClass/AuthorComparator.cs:13-26 | the corrected comparator is reflexive, antisymmetric and transitive on all inputs, nulls included |
| Sorting.Insert | oop-class-book/BookListService/BookListService.cs:106-115 | inserting adds exactly one occurrence of the book |
| Sorting.InsertKeepsSorted | oop-class-book/BookListService/BookListService.cs:106-115 | inserting into a sorted list keeps it sorted |
| Sorting.SortBooks | oop-class-book/BookListService/BookListService.cs:106-115 | the result is a permutation of the input, sorted by the comparator |
| Storage.BookStorage.constructor | oop-class-book/BookListService/BookStorage.cs:15-18 | a new storage holds no books |
| Storage.BookStorage.IsEmpty | oop-class-book/BookListService/BookStorage.cs:10-13 | true exactly when no book is stored |
| Storage.BookStorage.GetBooks | oop-class-book/BookListService/BookStorage.cs:20-23 | every stored book, in append order |
| Storage.BookStorage.AddBooks | oop-class-book/BookListService/BookStorage.cs:25-31 | the given books are appended in order; the storage is empty afterwards exactly when it was and nothing was given |
| ListService.ValuesOfMembers | oop-class-book/BookListService/BookListService.cs:9 | a book occurs among the dictionary's values exactly when some key holds it |
| ListService.ValuesOfSize | oop-class-book/BookListService/BookListService.cs:9 | the dictionary holds as many books as keys |
| ListService.ValuesOfRemove | oop-class-book/BookListService/BookListService.cs:47 | removing a key removes one occurrence of its book |
| ListService.ValuesOfInsert | oop-class-book/BookListService/BookListService.cs:27 | adding under a new key adds one occurrence of the book |
| ListService.ContainsValue | oop-class-book/BookListService/BookListService.cs:23 | true exactly when some stored value is value-equal (`Equals(Book)`) to the book; a stored book itself is always found |
| ListService.MatchingMembers | oop-class-book/BookListService/BookListService.cs:53-66 | a search result holds a book exactly when it is stored and its field equals the argument |
| ListService.MatchingNull | oop-class-book/BookListService/BookListService.cs:59 | searching for null finds nothing |
| ListService.ValuesOfIndexed | oop-class-book/BookListService/BookListService.cs:129-132 | a list stored under keys 0, 1, 2, ... keeps every book with its multiplicity |
| ListService.FirstUsedKey | oop-class-book/BookListService/BookListService.cs:129-132 | the first key among those `Load` tries that is in use, or the count when none is |
| ListService.BookListService.constructor | oop-class-book/BookListService/BookListService.cs:9 | a new catalogue is empty |
| ListService.BookListService.IsEmpty | oop-class-book/BookListService/BookListService.cs:16-19 | true exactly when the dictionary has no entries |
| ListService.BookListService.Add | oop-class-book/BookListService/BookListService.cs:21-28 | a value-equal book throws; a used count key throws DuplicateKey; otherwise stored under the count; value-distinctness and dense keys are kept, and with dense keys a new book always succeeds |
| ListService.BookListService.Remove | oop-class-book/BookListService/BookListService.cs:30-52 | empty is a no-op; no value-equal book throws; the entry holding this very object is removed and nothing else; value-distinctness is kept |
| ListService.BookListService.Snapshot | oop-class-book/BookListService/BookListService.cs:101-104 | the list holds every stored book once per key |
| ListService.BookListService.FindWhere | oop-class-book/BookListService/BookListService.cs:53-96 | the books whose field equals the argument, once per key |
| ListService.BookListService.FindByAuthor | oop-class-book/BookListService/BookListService.cs:53-66 | the stored books by this author, once per key |
| ListService.BookListService.FindByTitle | oop-class-book/BookListService/BookListService.cs:68-81 | the stored books with this title, once per key |
| ListService.BookListService.FindByPublisher | oop-class-book/BookListService/BookListService.cs:83-96 | the stored books from this publisher, once per key |
| ListService.BookListService.GetBy | oop-class-book/BookListService/BookListService.cs:97-122 | every stored book, sorted by author, pages or price for those three names |
| ListService.BookListService.Load | oop-class-book/BookListService/BookListService.cs:124-133 | the storage's books up to the first used key are added under 0, 1, 2, ...; DuplicateKey exactly when a used key is reached |
| ListService.BookListService.Save | oop-class-book/BookListService/BookListService.cs:135-145 | the storage keeps its books and gains every stored book, once per key |
| ListService.BookListService.NextFreeKey | oop-class-book/BookListService/BookListService.cs:27 | a key above every used key; with dense keys it is the count the source uses |
| ListService.BookListService.AddWithFreshKey | oop-class-book/BookListService/BookListService.cs:21-28 | a value-equal book throws; any other book is added under an unused key, the count when keys are dense |
| ListServiceScenarios.AddAfterRemoveCollides | oop-class-book/BookListService/BookListService.cs:21-52 | add a, add b, remove a, add c throws DuplicateKey for three distinct books |
| ListServiceScenarios.AddAfterRemoveWithFreshKey | oop-class-book/BookListService/BookListService.cs:21-52 | the same steps with fresh keys succeed and leave exactly b and c |
| ListServiceScenarios.SaveThenLoad | oop-class-book/BookListService/BookListService.cs:124-145 | saving into an empty storage and loading into an empty catalogue succeeds with the same books under dense keys |

## Left out

- Ordinal.Compare: `String.Compare` and `string.CompareTo` use the current culture's collation; the model orders strings by Unicode code point instead. The sign may therefore differ for strings that differ in case or diacritics, and culture collation can also answer 0 for strings that are not equal (canonically equivalent forms such as "e\u0301" and "\u00E9", or strings differing only by an ignorable code point such as U+00AD). The "0 exactly when equal" halves of `Ordinal.Compare`, `Books.Book.CompareTo` and `Comparators.AuthorCompare` hold for this ordinal order only. A Dafny `string` is a sequence of code points, whereas C# `Length` counts UTF-16 units; `IsbnVerifier.IsValid` answers the same either way, because no surrogate or supplementary character is `\d` or `-`.
- CurrencyValidator.IsValid: the runtime's culture and region tables are not modelled; the set of ISO symbols they yield is the parameter `isoSymbols`, and a region whose construction throws is skipped in the source and simply absent from that set.
- Books.Book.GetHashCode: `HashCode` is seeded per process; the combiner is the parameter `hash`, so only "depends on the ISBN alone" is stated.
- IsbnVerifier.IsValid: `\d` is the table of Unicode decimal digits of the Basic Multilingual Plane as of Unicode 15; a runtime with another Unicode version may accept a few more characters.
- `decimal` prices are exact reals: the 28-digit range and scale of `decimal` are not modelled. Page counts are unbounded integers instead of 32-bit `int`.
- `DateTime` is a calendar date plus ticks of the day; its `Kind` and time zone play no part in the short date and are not modelled.
- `GetBookList` returns the dictionary itself; the model's `bookList` field is that dictionary, so there is no separate member.
- `IBookStorage`: the service takes the one implementation, `BookStorage`; other implementations are not modelled.
- Null `Book` arguments: the catalogue, the storage and `Sorting` hold non-null books, so `Add(null)`, `Remove(null)` and null entries in a storage are not modelled. The comparators and `Equals`/`CompareTo` do take nulls.
- Sorting.SortBooks: `List<Book>.Sort` is an unstable introspective sort; the model sorts by insertion and states only the outcome (a sorted permutation), not the order among ties. Sorting uses the corrected comparator, which agrees with the written ones on non-null books.
- Dictionary enumeration order: searches, `GetBy` with another name, and `Save` are stated up to order (as multisets); which entry `Remove` visits first does not matter, since at most one key can hold a given object when the values are distinct, and otherwise any holding key may be removed.
- Aliasing in `BookStorage.AddBooks`: passing the storage's own list makes the C# enumeration throw `InvalidOperationException`; the model takes the books as a value and appends them.
- A null `fieldName` in `GetBy` compares unequal to every name, like any other unknown name; the model takes a non-null string.
- Exception messages are not modelled, only exception kinds. `DuplicateKeyException` is the `ArgumentException` that `Dictionary.Add` throws for a used key; `PlainException` is the base `Exception` that `Add` and `Remove` throw.

## Findings

| source | as written | input that shows it | evidently intended | confidence | as-written member | corrected member |
|---|---|---|---|---|---|---|
| oop-class-book/BookClass/AuthorComparator.cs:15-18 | a null first argument always sorts first, so two nulls compare as -1 both ways (same in PagesComparator.cs and PriceComparator.cs) | `Compare(null, null)` is -1, and swapped it is still -1 | two nulls tie (0), as `IComparer` requires | not executed | Comparators.NullNullIsNotATie | Comparators.CompareByIsOrder |
| oop-class-book/BookListService/BookListService.cs:27 | a new book is stored under the entry count, which after removing any entry but the last is a key still in use | add a, add b, remove a, add c (three value-distinct books): c's key 1 is still b's, so `Dictionary.Add` throws | store the new book under an unused key | not executed | ListServiceScenarios.AddAfterRemoveCollides | ListServiceScenarios.AddAfterRemoveWithFreshKey |
