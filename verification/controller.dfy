/**
 * The REST controller for `/books`: list-parameter defaults and constraints,
 * body validation before the service is called, and the success status,
 * Location and body of each endpoint. Every failure goes through the global
 * handler.
 */
module Controller {
  import opened Wrappers
  import opened Dates
  import opened Mapper
  import opened Errors
  import opened Paging
  import opened Service
  import Model
  import ObjectIds
  import CreateRequest
  import UpdateRequest

  /** A request body as the JSON reader delivers it: a value, or the reader's error. */
  datatype Payload<T> = Parsed(value: T) | Unreadable(message: string)

  datatype Body =
    | BookBody(book: BookResponse)
    | PageBody(page: PagedBookResponse)
    | ErrorBody(error: ErrorResponse)
    | NoBody

  /** A `ResponseEntity`: status, the Location header if any, and the body. */
  datatype HttpResponse = HttpResponse(status: int, location: Option<string>, body: Body)

  const Ok := 200
  const Created := 201
  const NoContent := 204

  const DefaultPage := 0
  const DefaultSize := 10

  /** The reason the parameter validator gives for a rejected parameter. */
  const ValidationFailure := "Validation failure"
  /** The paging library's message for a page size below one (an `IllegalArgumentException`). */
  const PageSizeTooSmall := "Page size must not be less than one"

  /** The reply of the global handler for a failure. */
  function ErrorOf(f: ErrorKind): HttpResponse {
    var reply := Handle(f);
    HttpResponse(reply.status, None, ErrorBody(reply.body))
  }

  /** The range of a Java `int`, the declared type of both list parameters. */
  const IntMin := -0x8000_0000
  const IntMax := 0x7fff_ffff

  predicate IsJavaInt(n: int) {
    IntMin <= n <= IntMax
  }

  /** `@Min(0)` on `page` and `size`: one result per negative value, page first. */
  function MinViolations(page: int, size: int): (r: seq<ParameterResult>)
    ensures |r| == (if page < 0 then 1 else 0) + (if size < 0 then 1 else 0)
    ensures page < 0 ==> r[0] == ParameterResult("page", page)
    ensures size < 0 ==> r[|r| - 1] == ParameterResult("size", size)
    ensures forall x | x in r :: x.argument < 0
  {
    (if page < 0 then [ParameterResult("page", page)] else [])
    + (if size < 0 then [ParameterResult("size", size)] else [])
  }

  /**
   * The list endpoint's parameters: a missing page is 0 and a missing size is
   * 10. A value outside the Java `int` range fails conversion before any
   * validation, and the generic handler reports the converter's error text
   * `conversionError`. Then a negative value of either is a
   * parameter-validation failure.
   */
  function ListParameters(page: Option<int>, size: Option<int>, conversionError: string)
    : (r: Result<(nat, nat), ErrorKind>)
    ensures var p, s := page.GetOr(DefaultPage), size.GetOr(DefaultSize);
      && (r.Success? <==> IsJavaInt(p) && IsJavaInt(s) && p >= 0 && s >= 0)
      && (r.Success? ==> r.value == (p, s) && p <= IntMax && s <= IntMax)
      && (!(IsJavaInt(p) && IsJavaInt(s)) ==> r == Failure(Unexpected(conversionError)))
      && (IsJavaInt(p) && IsJavaInt(s) && r.Failure? ==>
            r.error == ParameterValidation(ValidationFailure, MinViolations(p, s)))
  {
    var p := page.GetOr(DefaultPage);
    var s := size.GetOr(DefaultSize);
    if !(IsJavaInt(p) && IsJavaInt(s)) then Failure(Unexpected(conversionError))
    else if p >= 0 && s >= 0 then Success((p, s))
    else Failure(ParameterValidation(ValidationFailure, MinViolations(p, s)))
  }

  /**
   * POST /books: a body that cannot be read or that violates a constraint is
   * rejected with 400 before the service runs, so the store is unchanged.
   * Otherwise the service's outcome: 201 with Location `<request URL>/<new id>`
   * and the new book, or 409 for a duplicate isbn.
   */
  method CreateBook(service: BookService, requestUrl: string, body: Payload<CreateRequest.CreateBookRequest>,
                    today: LocalDate, newId: string, storeError: string) returns (resp: HttpResponse)
    requires service.Valid()
    requires ObjectIds.IsCanonical(newId) && newId !in service.books
    modifies service
    ensures service.Valid()
    ensures body.Unreadable? ==>
      resp == ErrorOf(UnreadableBody(body.message)) && resp.status == BadRequest
      && service.books == old(service.books)
    ensures body.Parsed? && !CreateRequest.Accepts(body.value, today) ==>
      resp == ErrorOf(BodyValidation(CreateRequest.Violations(body.value, today))) && resp.status == BadRequest
      && service.books == old(service.books)
    ensures body.Parsed? && CreateRequest.Accepts(body.value, today) ==>
      var d := DataOf(body.value);
      if !Model.IsbnHeldByOther(old(service.books), newId, d.isbn) then
        resp == HttpResponse(Created, Some(requestUrl + "/" + newId), BookBody(Render(Some(newId), d)))
        && service.books == old(service.books)[newId := d]
      else
        resp == ErrorOf(DuplicateKey(d.isbn, storeError)) && resp.status == Conflict
        && service.books == old(service.books)
  {
    if body.Unreadable? {
      return ErrorOf(UnreadableBody(body.message));
    }
    CreateRequest.AcceptedIffNoViolations(body.value, today);
    var errs := CreateRequest.Violations(body.value, today);
    if errs != [] {
      return ErrorOf(BodyValidation(errs));
    }
    var created := service.CreateBook(body.value, newId, storeError);
    if created.Failure? {
      return ErrorOf(created.error);
    }
    resp := HttpResponse(Created, Some(requestUrl + "/" + created.value.id.value), BookBody(created.value));
  }

  /** A page of 3000000000 does not fit a Java `int`, so it fails conversion instead of giving an empty page. */
  lemma OutOfRangePageExample(conversionError: string)
    ensures ListParameters(Some(3000000000), None, conversionError) == Failure(Unexpected(conversionError))
    ensures Handle(Unexpected(conversionError)).status == InternalServerError
  {
  }

  /**
   * The 200 reply of the list endpoint: page `page` of the store's listing in
   * `order`, its number, the page count ceil(total / size) and the total count.
   */
  function PageReply(books: map<string, Model.BookData>, order: seq<string>, page: nat, size: nat): (resp: HttpResponse)
    requires size >= 1
    requires IsStoreOrder(order, books)
    ensures resp.status == Ok && resp.location == None && resp.body.PageBody?
    ensures resp.body.page.currentPage == page
    ensures resp.body.page.totalBooks == |books|
    ensures resp.body.page.totalPages == TotalPages(|books|, size)
    ensures |resp.body.page.books| == |PageOf(order, page, size)| <= size
    ensures forall i | 0 <= i < |resp.body.page.books| ::
      page * size + i < |order|
      && resp.body.page.books[i] == Render(Some(order[page * size + i]), books[order[page * size + i]])
  {
    HttpResponse(Ok, None, PageBody(From(Page(RenderAll(PageOf(order, page, size), books), page, size, |books|))))
  }

  /**
   * GET /books: 500 for a value outside the Java `int` range; 400 for a
   * negative parameter, naming it and quoting its value; 500 for a page size
   * of 0, which the paging library refuses; otherwise 200 with the page of the
   * store's listing.
   */
  method GetAllBooks(service: BookService, page: Option<int>, size: Option<int>, order: seq<string>,
                     conversionError: string) returns (resp: HttpResponse)
    requires IsStoreOrder(order, service.books)
    ensures var p, s := page.GetOr(DefaultPage), size.GetOr(DefaultSize);
      !(IsJavaInt(p) && IsJavaInt(s)) ==>
        resp == ErrorOf(Unexpected(conversionError)) && resp.status == InternalServerError
    ensures var p, s := page.GetOr(DefaultPage), size.GetOr(DefaultSize);
      IsJavaInt(p) && IsJavaInt(s) && (p < 0 || s < 0) ==>
        resp == ErrorOf(ParameterValidation(ValidationFailure, MinViolations(p, s))) && resp.status == BadRequest
    ensures var p, s := page.GetOr(DefaultPage), size.GetOr(DefaultSize);
      IsJavaInt(p) && p >= 0 && s == 0 ==>
        resp == ErrorOf(Unexpected(PageSizeTooSmall)) && resp.status == InternalServerError
    ensures var p, s := page.GetOr(DefaultPage), size.GetOr(DefaultSize);
      IsJavaInt(p) && IsJavaInt(s) && p >= 0 && s >= 1 ==>
        resp == PageReply(service.books, order, p, s)
  {
    ghost var p0, s0 := page.GetOr(DefaultPage), size.GetOr(DefaultSize);
    var params := ListParameters(page, size, conversionError);
    if params.Failure? {
      if !(IsJavaInt(p0) && IsJavaInt(s0)) {
        assert params.error == Unexpected(conversionError);
      } else {
        assert params.error == ParameterValidation(ValidationFailure, MinViolations(p0, s0));
      }
      return ErrorOf(params.error);
    }
    var (p, s) := params.value;
    assert p == p0 && s == s0;
    if s == 0 {
      return ErrorOf(Unexpected(PageSizeTooSmall));
    }
    resp := ListPage(service, p, s, order);
  }

  /** The success path of GET /books: the service's page, wrapped by `PagedBookResponse.from`. */
  method ListPage(service: BookService, page: nat, size: nat, order: seq<string>) returns (resp: HttpResponse)
    requires size >= 1
    requires IsStoreOrder(order, service.books)
    ensures resp == PageReply(service.books, order, page, size)
  {
    var books := service.GetAllBooks(page, size, order);
    assert books.content == RenderAll(PageOf(order, page, size), service.books);
    resp := HttpResponse(Ok, None, PageBody(From(books)));
  }

  /**
   * GET /books/{id}: 200 with the stored book, under any spelling of its id,
   * or 400 for a malformed id, or 404 for an absent one.
   */
  method GetBookById(service: BookService, id: string) returns (resp: HttpResponse)
    ensures !ObjectIds.IsValid(id) ==> resp == ErrorOf(InvalidObjectId(id)) && resp.status == BadRequest
    ensures ObjectIds.IsValid(id) && ObjectIds.Canonical(id) !in service.books ==>
      resp == ErrorOf(BookNotFound(id)) && resp.status == NotFound
    ensures ObjectIds.IsValid(id) && ObjectIds.Canonical(id) in service.books ==>
      var key := ObjectIds.Canonical(id);
      resp == HttpResponse(Ok, None, BookBody(Render(Some(key), service.books[key])))
  {
    var found := service.GetBookById(id);
    if found.Failure? {
      return ErrorOf(found.error);
    }
    resp := HttpResponse(Ok, None, BookBody(found.value));
  }

  /**
   * POST /books/{id}: the body is read and validated before the service runs
   * (a bad body is reported even for a malformed id); then 400, 404 or 409 as
   * the service fails, or 200 with the updated book.
   */
  method UpdateBook(service: BookService, id: string, body: Payload<UpdateRequest.UpdateBookRequest>,
                    today: LocalDate, storeError: string) returns (resp: HttpResponse)
    requires service.Valid()
    modifies service
    ensures service.Valid()
    ensures body.Unreadable? ==>
      resp == ErrorOf(UnreadableBody(body.message)) && resp.status == BadRequest
      && service.books == old(service.books)
    ensures body.Parsed? && !UpdateRequest.Accepts(body.value, today) ==>
      resp == ErrorOf(BodyValidation(UpdateRequest.Violations(body.value, today))) && resp.status == BadRequest
      && service.books == old(service.books)
    ensures body.Parsed? && UpdateRequest.Accepts(body.value, today) ==>
      && (!ObjectIds.IsValid(id) ==>
            resp == ErrorOf(InvalidObjectId(id)) && resp.status == BadRequest && service.books == old(service.books))
      && (ObjectIds.IsValid(id) && ObjectIds.Canonical(id) !in old(service.books) ==>
            resp == ErrorOf(BookNotFound(id)) && resp.status == NotFound && service.books == old(service.books))
      && (ObjectIds.IsValid(id) && ObjectIds.Canonical(id) in old(service.books) ==>
            var key := ObjectIds.Canonical(id);
            var p := Patched(body.value, old(service.books)[key]);
            if Model.IsbnHeldByOther(old(service.books), key, p.isbn) then
              resp == ErrorOf(DuplicateKey(p.isbn, storeError)) && resp.status == Conflict
              && service.books == old(service.books)
            else
              resp == HttpResponse(Ok, None, BookBody(Render(Some(key), p)))
              && service.books == old(service.books)[key := p])
  {
    if body.Unreadable? {
      return ErrorOf(UnreadableBody(body.message));
    }
    var errs := UpdateRequest.Violations(body.value, today);
    if errs != [] {
      return ErrorOf(BodyValidation(errs));
    }
    var updated := service.UpdateBook(id, body.value, storeError);
    if updated.Failure? {
      return ErrorOf(updated.error);
    }
    resp := HttpResponse(Ok, None, BookBody(updated.value));
  }

  /** DELETE /books/{id}: 204 with no body once the book is removed, or 400 / 404 as for a read. */
  method DeleteBook(service: BookService, id: string) returns (resp: HttpResponse)
    requires service.Valid()
    modifies service
    ensures service.Valid()
    ensures !ObjectIds.IsValid(id) ==>
      resp == ErrorOf(InvalidObjectId(id)) && resp.status == BadRequest && service.books == old(service.books)
    ensures ObjectIds.IsValid(id) && ObjectIds.Canonical(id) !in old(service.books) ==>
      resp == ErrorOf(BookNotFound(id)) && resp.status == NotFound && service.books == old(service.books)
    ensures ObjectIds.IsValid(id) && ObjectIds.Canonical(id) in old(service.books) ==>
      resp == HttpResponse(NoContent, None, NoBody) && service.books == old(service.books) - {ObjectIds.Canonical(id)}
  {
    var deleted := service.DeleteBook(id);
    if deleted.Failure? {
      return ErrorOf(deleted.error);
    }
    resp := HttpResponse(NoContent, None, NoBody);
  }
}
