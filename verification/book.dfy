/** The `Book` entity, the value a stored document holds, and the store's unique isbn index. */
module Model {
  import opened Wrappers
  import opened Dates
  import opened Constraints

  /** The persisted fields of a book; the store keeps one of these under each id. */
  datatype BookData = BookData(title: string, author: string, isbn: string, publishedDate: LocalDate)

  /**
   * The `Book` entity object. Its setters are public, the mapper updates it in
   * place, and saving it assigns its id.
   */
  class Book {
    var id: Option<string>
    var title: string
    var author: string
    var isbn: string
    var publishedDate: LocalDate

    /** The required-arguments constructor: every field but the id, which stays null. */
    constructor (title: string, author: string, isbn: string, publishedDate: LocalDate)
      ensures id == None
      ensures Data() == BookData(title, author, isbn, publishedDate)
    {
      this.id := None;
      this.title := title;
      this.author := author;
      this.isbn := isbn;
      this.publishedDate := publishedDate;
    }

    /** The fields that are persisted besides the id. */
    function Data(): BookData
      reads this
    {
      BookData(title, author, isbn, publishedDate)
    }
  }

  /**
   * The constraints declared on the entity's fields: non-blank title, author and
   * isbn, an isbn of exactly 13 characters, and a date that is not in the future.
   */
  predicate Conforms(d: BookData, today: LocalDate) {
    && !IsBlank(Some(d.title))
    && !IsBlank(Some(d.author))
    && !IsBlank(Some(d.isbn)) && |d.isbn| == 13
    && !IsAfter(d.publishedDate, today)
  }

  /** The unique index on isbn: two stored books with equal isbn are the same book. */
  predicate IsbnUnique(books: map<string, BookData>) {
    forall k1, k2 | k1 in books && k2 in books && books[k1].isbn == books[k2].isbn :: k1 == k2
  }

  /** A stored book other than the one under `key` already holds `isbn`. */
  predicate IsbnHeldByOther(books: map<string, BookData>, key: string, isbn: string) {
    exists k | k in books :: k != key && books[k].isbn == isbn
  }

  /** Writing a book whose isbn no other book holds keeps the index unique. */
  lemma {:induction false} PutPreservesIsbnUnique(books: map<string, BookData>, key: string, d: BookData)
    requires IsbnUnique(books) && !IsbnHeldByOther(books, key, d.isbn)
    ensures IsbnUnique(books[key := d])
  {
    var after := books[key := d];
    forall k1, k2 | k1 in after && k2 in after && after[k1].isbn == after[k2].isbn
      ensures k1 == k2
    {
      if k1 != key && k2 != key {
        assert books[k1].isbn == books[k2].isbn;
      }
    }
  }

  /**
   * The index is unique exactly when no stored book's isbn is held by another
   * key, the test the store applies on every write.
   */
  lemma IsbnUniqueIffNoClash(books: map<string, BookData>)
    ensures IsbnUnique(books) <==> forall k | k in books :: !IsbnHeldByOther(books, k, books[k].isbn)
  {
  }

  /** With a 13-digit isbn, the isbn's own constraints hold and only title, author and date remain. */
  lemma {:induction false} ConformsWithThirteenDigitIsbn(d: BookData, today: LocalDate)
    requires IsThirteenDigits(d.isbn)
    ensures !IsBlank(Some(d.isbn)) && |d.isbn| == 13
    ensures Conforms(d, today) <==>
      !IsBlank(Some(d.title)) && !IsBlank(Some(d.author)) && !IsAfter(d.publishedDate, today)
  {
    ThirteenDigitsNotBlank(d.isbn);
  }
}
