/** The body of a create request and the four field constraints it declares. */
module CreateRequest {
  import opened Wrappers
  import opened Dates
  import opened Constraints

  /** `CreateBookRequestDTO`; a field left out of the JSON body is null. */
  datatype CreateBookRequest = CreateBookRequest(
    title: Option<string>,
    author: Option<string>,
    isbn: Option<string>,
    publishedDate: Option<LocalDate>)
  {
    /** Every field is present, as the entity's non-null constructor demands. */
    predicate IsComplete() {
      title.Some? && author.Some? && isbn.Some? && publishedDate.Some?
    }
  }

  const TitleRequired := FieldError("title", "Title is required.")
  const AuthorRequired := FieldError("author", "Author is required.")
  const IsbnRequired := FieldError("isbn", "ISBN is required.")
  const DateInFuture := FieldError("publishedDate", "Published date cannot be in future.")
  const DateRequired := FieldError("publishedDate", "Published date is required.")

  /** The request satisfies every declared constraint. */
  predicate Accepts(r: CreateBookRequest, today: LocalDate) {
    && !IsBlank(r.title)
    && !IsBlank(r.author)
    && r.isbn.Some? && IsThirteenDigits(r.isbn.value)
    && r.publishedDate.Some? && !IsAfter(r.publishedDate.value, today)
  }

  /**
   * Every violated constraint of the request, all reported together, in
   * declaration order. Each message is reported exactly when its constraint
   * fails, and no other message is reported.
   */
  function Violations(r: CreateBookRequest, today: LocalDate): (errs: seq<FieldError>)
    ensures TitleRequired in errs <==> IsBlank(r.title)
    ensures AuthorRequired in errs <==> IsBlank(r.author)
    ensures IsbnRequired in errs <==> IsBlank(r.isbn)
    ensures IsbnPatternError in errs <==> r.isbn.Some? && !IsThirteenDigits(r.isbn.value)
    ensures DateRequired in errs <==> r.publishedDate.None?
    ensures DateInFuture in errs <==> r.publishedDate.Some? && IsAfter(r.publishedDate.value, today)
    ensures forall e | e in errs ::
      e in [TitleRequired, AuthorRequired, IsbnRequired, IsbnPatternError, DateInFuture, DateRequired]
  {
    Check(!IsBlank(r.title), TitleRequired)
    + Check(!IsBlank(r.author), AuthorRequired)
    + IsbnViolations(r.isbn)
    + DateViolations(r.publishedDate, today)
  }

  function IsbnViolations(isbn: Option<string>): (errs: seq<FieldError>)
    ensures IsbnRequired in errs <==> IsBlank(isbn)
    ensures IsbnPatternError in errs <==> isbn.Some? && !IsThirteenDigits(isbn.value)
    ensures forall e | e in errs :: e.field == "isbn"
    ensures NoRepeats(errs)
  {
    MessagesDistinct();
    Check(!IsBlank(isbn), IsbnRequired) + Check(PatternHolds(isbn), IsbnPatternError)
  }

  function DateViolations(d: Option<LocalDate>, today: LocalDate): (errs: seq<FieldError>)
    ensures DateRequired in errs <==> d.None?
    ensures DateInFuture in errs <==> d.Some? && IsAfter(d.value, today)
    ensures forall e | e in errs :: e.field == "publishedDate"
    ensures NoRepeats(errs)
  {
    MessagesDistinct();
    Check(PastOrPresentHolds(d, today), DateInFuture) + Check(d.Some?, DateRequired)
  }

  /** The six errors a create request can report are pairwise different. */
  lemma MessagesDistinct()
    ensures var all := [TitleRequired, AuthorRequired, IsbnRequired, IsbnPatternError, DateInFuture, DateRequired];
      forall i, j | 0 <= i < j < |all| :: all[i] != all[j]
  {
    assert |TitleRequired.message| == 18 && |AuthorRequired.message| == 19;
    assert |IsbnRequired.message| == 17 && |IsbnPatternError.message| == 30;
    assert |DateInFuture.message| == 35 && |DateRequired.message| == 27;
  }

  /** The request is accepted exactly when it has no violation. */
  lemma {:induction false} AcceptedIffNoViolations(r: CreateBookRequest, today: LocalDate)
    ensures Violations(r, today) == [] <==> Accepts(r, today)
  {
    var errs := Violations(r, today);
    ThirteenDigitsNotBlank(r.isbn.GetOr(""));
    if errs != [] {
      assert errs[0] in errs;
    }
  }

  /** No error appears twice in the list. */
  predicate NoRepeats(errs: seq<FieldError>) {
    forall i, j | 0 <= i < j < |errs| :: errs[i] != errs[j]
  }

  /** Joining two lists without repeats whose errors concern different fields gives a list without repeats. */
  lemma {:induction false} NoRepeatsAppend(x: seq<FieldError>, y: seq<FieldError>)
    requires NoRepeats(x) && NoRepeats(y)
    requires forall e, f | e in x && f in y :: e.field != f.field
    ensures NoRepeats(x + y)
  {
    forall i, j | 0 <= i < j < |x + y|
      ensures (x + y)[i] != (x + y)[j]
    {
      if i < |x| && j >= |x| {
        assert (x + y)[i] in x && (x + y)[j] in y;
      }
    }
  }

  /** No message is reported twice. */
  lemma {:induction false} ViolationsReportEachOnce(r: CreateBookRequest, today: LocalDate)
    ensures NoRepeats(Violations(r, today))
  {
    var t := Check(!IsBlank(r.title), TitleRequired);
    var a := Check(!IsBlank(r.author), AuthorRequired);
    var n := IsbnViolations(r.isbn);
    var d := DateViolations(r.publishedDate, today);
    NoRepeatsAppend(t, a);
    NoRepeatsAppend(t + a, n);
    NoRepeatsAppend(t + a + n, d);
  }

  /** An accepted request has every field, so it can be turned into an entity. */
  lemma AcceptedIsComplete(r: CreateBookRequest, today: LocalDate)
    requires Accepts(r, today)
    ensures r.IsComplete()
  {
  }

  /** A missing isbn is reported as required but not as a pattern mismatch. */
  lemma MissingIsbnReportsOnlyRequired(r: CreateBookRequest, today: LocalDate)
    requires r.isbn.None?
    ensures IsbnRequired in Violations(r, today)
    ensures IsbnPatternError !in Violations(r, today)
  {
  }
}
