/** The body of an update request: every field optional, only isbn and date constrained. */
module UpdateRequest {
  import opened Wrappers
  import opened Dates
  import opened Constraints

  /** `UpdateBookRequestDTO`; a null field means "leave the stored value alone". */
  datatype UpdateBookRequest = UpdateBookRequest(
    title: Option<string>,
    author: Option<string>,
    isbn: Option<string>,
    publishedDate: Option<LocalDate>)

  const Empty := UpdateBookRequest(None, None, None, None)

  /** `@PastOrPresent` without a message: the validator's default English message. */
  const DateNotPastOrPresent := FieldError("publishedDate", "must be a date in the past or in the present")

  predicate Accepts(r: UpdateBookRequest, today: LocalDate) {
    PatternHolds(r.isbn) && PastOrPresentHolds(r.publishedDate, today)
  }

  /**
   * The violated constraints of an update request. Only a present isbn
   * and a present date are checked; title and author are never checked.
   */
  function Violations(r: UpdateBookRequest, today: LocalDate): (errs: seq<FieldError>)
    ensures IsbnPatternError in errs <==> r.isbn.Some? && !IsThirteenDigits(r.isbn.value)
    ensures DateNotPastOrPresent in errs <==> r.publishedDate.Some? && IsAfter(r.publishedDate.value, today)
    ensures forall e | e in errs :: e in [IsbnPatternError, DateNotPastOrPresent]
    ensures errs == [] <==> Accepts(r, today)
    ensures |errs| == (if PatternHolds(r.isbn) then 0 else 1) + (if PastOrPresentHolds(r.publishedDate, today) then 0 else 1)
    ensures forall i, j | 0 <= i < j < |errs| :: errs[i] != errs[j]
  {
    Check(PatternHolds(r.isbn), IsbnPatternError)
    + Check(PastOrPresentHolds(r.publishedDate, today), DateNotPastOrPresent)
  }

  /** Title and author do not affect validation: any value, blank included, passes. */
  lemma TitleAndAuthorUnconstrained(r: UpdateBookRequest, today: LocalDate, title: Option<string>, author: Option<string>)
    ensures Violations(r.(title := title, author := author), today) == Violations(r, today)
  {
  }

  /** A request with every field null is valid. */
  lemma EmptyIsValid(today: LocalDate)
    ensures Violations(Empty, today) == []
  {
  }

  /** A request carrying only a well-formed isbn is valid. */
  lemma IsbnOnlyIsValid(isbn: string, today: LocalDate)
    requires IsThirteenDigits(isbn)
    ensures Violations(Empty.(isbn := Some(isbn)), today) == []
  {
  }
}
