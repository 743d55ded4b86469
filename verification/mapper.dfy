/**
 * The mapper between request and response bodies and the `Book` entity:
 * construction, rendering, and the null-ignoring partial update.
 */
module Mapper {
  import opened Wrappers
  import opened Dates
  import opened Constraints
  import opened Model
  import CreateRequest
  import UpdateRequest

  /** `BookResponseDTO`: the entity's fields with the date as `dd-MM-yyyy` text. */
  datatype BookResponse = BookResponse(
    id: Option<string>,
    title: string,
    author: string,
    isbn: string,
    publishedDate: string)

  /** The fields a complete create request gives the new entity. */
  function DataOf(request: CreateRequest.CreateBookRequest): BookData
    requires request.IsComplete()
  {
    BookData(request.title.value, request.author.value, request.isbn.value, request.publishedDate.value)
  }

  /** `toEntity`: a new entity without an id, the four fields copied verbatim. */
  method ToEntity(request: CreateRequest.CreateBookRequest) returns (book: Book)
    requires request.IsComplete()
    ensures fresh(book)
    ensures book.id == None
    ensures book.title == request.title.value && book.author == request.author.value
    ensures book.isbn == request.isbn.value && book.publishedDate == request.publishedDate.value
  {
    book := new Book(request.title.value, request.author.value, request.isbn.value, request.publishedDate.value);
  }

  /**
   * The response for a book with the given id and fields: id, title, author and
   * isbn copied verbatim, the date rendered as `dd-MM-yyyy` text that parses
   * back to the same date.
   */
  function Render(id: Option<string>, d: BookData): (r: BookResponse)
    ensures r.id == id && r.title == d.title && r.author == d.author && r.isbn == d.isbn
    ensures |r.publishedDate| == 10 && r.publishedDate[2] == '-' && r.publishedDate[5] == '-'
    ensures Parse(r.publishedDate) == Some(d.publishedDate)
  {
    BookResponse(id, d.title, d.author, d.isbn, Format(d.publishedDate))
  }

  /** `toResponse` of an entity object: its id and fields, the date as `dd-MM-yyyy` text. */
  function ToResponse(book: Book): (r: BookResponse)
    reads book
    ensures r.id == book.id && r.title == book.title && r.author == book.author && r.isbn == book.isbn
    ensures Parse(r.publishedDate) == Some(book.publishedDate)
  {
    Render(book.id, book.Data())
  }

  /**
   * The fields after a partial update: a field is overwritten exactly when the
   * request's value for it is non-null, and keeps its value otherwise.
   */
  function Patched(r: UpdateRequest.UpdateBookRequest, d: BookData): (p: BookData)
    ensures r.title.Some? ==> p.title == r.title.value
    ensures r.title.None? ==> p.title == d.title
    ensures r.author.Some? ==> p.author == r.author.value
    ensures r.author.None? ==> p.author == d.author
    ensures r.isbn.Some? ==> p.isbn == r.isbn.value
    ensures r.isbn.None? ==> p.isbn == d.isbn
    ensures r.publishedDate.Some? ==> p.publishedDate == r.publishedDate.value
    ensures r.publishedDate.None? ==> p.publishedDate == d.publishedDate
  {
    BookData(
      r.title.GetOr(d.title),
      r.author.GetOr(d.author),
      r.isbn.GetOr(d.isbn),
      r.publishedDate.GetOr(d.publishedDate))
  }

  /**
   * `updateEntity`: updates the given entity in place, field by field, skipping
   * null request fields, never touching the id, and returns that same entity.
   */
  method UpdateEntity(request: UpdateRequest.UpdateBookRequest, book: Book) returns (result: Book)
    modifies book
    ensures result == book
    ensures book.id == old(book.id)
    ensures book.Data() == Patched(request, old(book.Data()))
  {
    if request.title.Some? {
      book.title := request.title.value;
    }
    if request.author.Some? {
      book.author := request.author.value;
    }
    if request.isbn.Some? {
      book.isbn := request.isbn.value;
    }
    if request.publishedDate.Some? {
      book.publishedDate := request.publishedDate.value;
    }
    result := book;
  }

  /** `toEntityList`: one new entity per request, in the same order. */
  method ToEntityList(requests: seq<CreateRequest.CreateBookRequest>) returns (books: seq<Book>)
    requires forall i | 0 <= i < |requests| :: requests[i].IsComplete()
    ensures |books| == |requests|
    ensures forall i | 0 <= i < |books| ::
      fresh(books[i]) && books[i].id == None && books[i].Data() == DataOf(requests[i])
    ensures forall i, j | 0 <= i < j < |books| :: books[i] != books[j]
  {
    books := [];
    for n := 0 to |requests|
      invariant |books| == n
      invariant forall i | 0 <= i < n ::
        fresh(books[i]) && books[i].id == None && books[i].Data() == DataOf(requests[i])
      invariant forall i, j | 0 <= i < j < n :: books[i] != books[j]
    {
      var book := ToEntity(requests[n]);
      books := books + [book];
    }
  }

  /** An update with every field null leaves the fields as they were. */
  lemma EmptyPatchIsIdentity(d: BookData)
    ensures Patched(UpdateRequest.Empty, d) == d
  {
  }

  /** Applying the same update twice has the effect of applying it once. */
  lemma PatchIsIdempotent(r: UpdateRequest.UpdateBookRequest, d: BookData)
    ensures Patched(r, Patched(r, d)) == Patched(r, d)
  {
  }

  /** Rendering an entity made from a create request reproduces the request's fields. */
  lemma CreateRoundTrip(request: CreateRequest.CreateBookRequest)
    requires request.IsComplete()
    ensures var r := Render(None, DataOf(request));
      && r.id == None
      && Some(r.title) == request.title && Some(r.author) == request.author && Some(r.isbn) == request.isbn
      && Parse(r.publishedDate) == request.publishedDate
  {
  }

  /** An entity made from an accepted create request meets every constraint the entity declares. */
  lemma {:induction false} AcceptedCreateConforms(request: CreateRequest.CreateBookRequest, today: LocalDate)
    requires CreateRequest.Accepts(request, today)
    ensures Conforms(DataOf(request), today)
  {
    ThirteenDigitsNotBlank(request.isbn.value);
  }

  /**
   * An accepted update keeps a conforming book's isbn thirteen digits and its
   * date not in the future; title and author are not protected.
   */
  lemma AcceptedUpdateKeepsIsbnAndDate(r: UpdateRequest.UpdateBookRequest, d: BookData, today: LocalDate)
    requires UpdateRequest.Accepts(r, today)
    requires IsThirteenDigits(d.isbn) && !IsAfter(d.publishedDate, today)
    ensures IsThirteenDigits(Patched(r, d).isbn) && !IsAfter(Patched(r, d).publishedDate, today)
  {
  }

  /**
   * An accepted update can store a blank title: the update request declares no
   * constraint on title, although the entity declares it non-blank.
   */
  lemma {:induction false} AcceptedUpdateCanBlankTitle()
    ensures var today := Date(2024, 6, 1);
      var d := BookData("Integration Test", "Author Name", "9876543210123", today);
      var r := UpdateRequest.Empty.(title := Some(""));
      && Conforms(d, today) && UpdateRequest.Accepts(r, today) && !Conforms(Patched(r, d), today)
  {
    var today := Date(2024, 6, 1);
    var d := BookData("Integration Test", "Author Name", "9876543210123", today);
    assert d.title[0] == 'I' && d.author[0] == 'A';
    assert Decimal.IsDigit(d.isbn[0]);
  }
}
