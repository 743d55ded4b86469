/**
 * The book service over the document store. The store is a map from id, in
 * the store's lower-case spelling, to the book's fields, with a unique index
 * on isbn. The ids the store generates, the order it lists books in and the
 * text of its duplicate-key error are given to the operations that need them.
 */
module Service {
  import opened Wrappers
  import opened Model
  import opened Mapper
  import opened Errors
  import opened Paging
  import ObjectIds
  import CreateRequest
  import UpdateRequest

  /** `order` lists every stored id exactly once: the order the store returns books in. */
  predicate IsStoreOrder(order: seq<string>, books: map<string, BookData>) {
    && |order| == |books|
    && (forall i | 0 <= i < |order| :: order[i] in books)
    && (forall i, j | 0 <= i < j < |order| :: order[i] != order[j])
  }

  /** The responses for the books stored under `keys`, in that order. */
  function RenderAll(keys: seq<string>, books: map<string, BookData>): seq<BookResponse>
    requires forall i | 0 <= i < |keys| :: keys[i] in books
  {
    seq(|keys|, i requires 0 <= i < |keys| => Render(Some(keys[i]), books[keys[i]]))
  }

  class BookService {
    /** The stored books, by id in canonical spelling. */
    var books: map<string, BookData>

    /** The unique isbn index holds and every key is a well-formed id in the store's spelling. */
    ghost predicate Valid()
      reads this
    {
      IsbnUnique(books) && forall k | k in books :: ObjectIds.IsCanonical(k)
    }

    /** The service over a store that already holds `books`. */
    constructor (books: map<string, BookData>)
      requires IsbnUnique(books) && forall k | k in books :: ObjectIds.IsCanonical(k)
      ensures Valid() && this.books == books
    {
      this.books := books;
    }

    /**
     * `validateBook`: the format check comes first, so a malformed id fails
     * as invalid whatever the store holds. A well-formed id is looked up by
     * the object it names, so any spelling of a stored id finds it; otherwise
     * it fails as not found. Both failures quote the id as given. A found book
     * is a fresh entity carrying the stored spelling of its id.
     */
    method ValidateBook(id: string) returns (r: Result<Book, ErrorKind>)
      ensures !ObjectIds.IsValid(id) ==> r == Failure(InvalidObjectId(id))
      ensures ObjectIds.IsValid(id) && ObjectIds.Canonical(id) !in books ==> r == Failure(BookNotFound(id))
      ensures ObjectIds.IsValid(id) && ObjectIds.Canonical(id) in books ==>
        && r.Success? && fresh(r.value) && r.value.id == Some(ObjectIds.Canonical(id))
        && r.value.Data() == books[ObjectIds.Canonical(id)]
    {
      if !ObjectIds.IsValid(id) {
        return Failure(InvalidObjectId(id));
      }
      var key := ObjectIds.Canonical(id);
      if key !in books {
        return Failure(BookNotFound(id));
      }
      var d := books[key];
      var book := new Book(d.title, d.author, d.isbn, d.publishedDate);
      book.id := Some(key);
      r := Success(book);
    }

    /**
     * The store's save: the entity is written under its id, or under the
     * generated `newId` (which is then assigned to it) when it has none. The
     * unique index rejects an isbn that another stored book holds, with the
     * store's error text `storeError`, and then nothing changes.
     */
    method Save(book: Book, newId: string, storeError: string) returns (r: Result<(), ErrorKind>)
      requires Valid()
      requires book.id.Some? ==> ObjectIds.IsCanonical(book.id.value)
      requires book.id.None? ==> ObjectIds.IsCanonical(newId) && newId !in books
      modifies this, book`id
      ensures Valid()
      ensures var key := if old(book.id).Some? then old(book.id).value else newId;
        if IsbnHeldByOther(old(books), key, book.isbn) then
          r == Failure(DuplicateKey(book.isbn, storeError)) && books == old(books) && book.id == old(book.id)
        else
          r == Success(()) && books == old(books)[key := book.Data()] && book.id == Some(key)
    {
      var key := if book.id.Some? then book.id.value else newId;
      if exists k | k in books :: k != key && books[k].isbn == book.isbn {
        return Failure(DuplicateKey(book.isbn, storeError));
      }
      PutPreservesIsbnUnique(books, key, book.Data());
      books := books[key := book.Data()];
      book.id := Some(key);
      r := Success(());
    }

    /**
     * `createBook`: with an isbn no stored book has, exactly one book is added,
     * under the new id, with the request's fields, and the response carries
     * that id; otherwise the store rejects the duplicate and nothing changes.
     */
    method CreateBook(request: CreateRequest.CreateBookRequest, newId: string, storeError: string)
      returns (r: Result<BookResponse, ErrorKind>)
      requires Valid()
      requires request.IsComplete()
      requires ObjectIds.IsCanonical(newId) && newId !in books
      modifies this
      ensures Valid()
      ensures var d := DataOf(request);
        if !IsbnHeldByOther(old(books), newId, d.isbn) then
          r == Success(Render(Some(newId), d)) && books == old(books)[newId := d]
          && |books| == |old(books)| + 1
        else
          r == Failure(DuplicateKey(d.isbn, storeError)) && books == old(books)
    {
      var book := ToEntity(request);
      var saved := Save(book, newId, storeError);
      if saved.Failure? {
        return Failure(saved.error);
      }
      r := Success(ToResponse(book));
    }

    /**
     * `getAllBooks`: page `page` of the store's listing in its order, every
     * book rendered, with the page number, the page size and the store's
     * total count.
     */
    method GetAllBooks(page: nat, size: nat, order: seq<string>) returns (p: Page<BookResponse>)
      requires size >= 1
      requires IsStoreOrder(order, books)
      ensures p.number == page && p.size == size && p.totalElements == |books|
      ensures |p.content| == |PageOf(order, page, size)| <= size
      ensures forall i | 0 <= i < |p.content| ::
        page * size + i < |order| && p.content[i] == Render(Some(order[page * size + i]), books[order[page * size + i]])
    {
      var keys := PageOf(order, page, size);
      p := Page(RenderAll(keys, books), page, size, |books|);
    }

    /**
     * `updateBook`: after the id checks of `ValidateBook`, the stored book gets
     * exactly the request's non-null fields, keeps its id, and is written back
     * under the same key with no other book changed; if another book holds the
     * resulting isbn, the store rejects it and nothing changes.
     */
    method UpdateBook(id: string, request: UpdateRequest.UpdateBookRequest, storeError: string)
      returns (r: Result<BookResponse, ErrorKind>)
      requires Valid()
      modifies this
      ensures Valid()
      ensures !ObjectIds.IsValid(id) ==> r == Failure(InvalidObjectId(id)) && books == old(books)
      ensures ObjectIds.IsValid(id) && ObjectIds.Canonical(id) !in old(books) ==>
        r == Failure(BookNotFound(id)) && books == old(books)
      ensures ObjectIds.IsValid(id) && ObjectIds.Canonical(id) in old(books) ==>
        var key := ObjectIds.Canonical(id);
        var p := Patched(request, old(books)[key]);
        if IsbnHeldByOther(old(books), key, p.isbn) then
          r == Failure(DuplicateKey(p.isbn, storeError)) && books == old(books)
        else
          r == Success(Render(Some(key), p)) && books == old(books)[key := p]
    {
      var found := ValidateBook(id);
      if found.Failure? {
        return Failure(found.error);
      }
      var book := UpdateEntity(request, found.value);
      var saved := Save(book, ObjectIds.Canonical(id), storeError);
      if saved.Failure? {
        return Failure(saved.error);
      }
      r := Success(ToResponse(book));
    }

    /** `getBookById`: the stored book's response under any spelling of its id, or the failure `ValidateBook` reports. */
    method GetBookById(id: string) returns (r: Result<BookResponse, ErrorKind>)
      ensures !ObjectIds.IsValid(id) ==> r == Failure(InvalidObjectId(id))
      ensures ObjectIds.IsValid(id) && ObjectIds.Canonical(id) !in books ==> r == Failure(BookNotFound(id))
      ensures ObjectIds.IsValid(id) && ObjectIds.Canonical(id) in books ==>
        r == Success(Render(Some(ObjectIds.Canonical(id)), books[ObjectIds.Canonical(id)]))
    {
      var found := ValidateBook(id);
      if found.Failure? {
        return Failure(found.error);
      }
      r := Success(ToResponse(found.value));
    }

    /** `deleteBook`: removes exactly the entry the id names, after the checks of `ValidateBook`. */
    method DeleteBook(id: string) returns (r: Result<(), ErrorKind>)
      requires Valid()
      modifies this
      ensures Valid()
      ensures !ObjectIds.IsValid(id) ==> r == Failure(InvalidObjectId(id)) && books == old(books)
      ensures ObjectIds.IsValid(id) && ObjectIds.Canonical(id) !in old(books) ==>
        r == Failure(BookNotFound(id)) && books == old(books)
      ensures ObjectIds.IsValid(id) && ObjectIds.Canonical(id) in old(books) ==>
        r == Success(()) && books == old(books) - {ObjectIds.Canonical(id)}
    {
      var found := ValidateBook(id);
      if found.Failure? {
        return Failure(found.error);
      }
      books := books - {found.value.id.value};
      r := Success(());
    }
  }
}
