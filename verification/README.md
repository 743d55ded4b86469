# Book library service — a Dafny model

The system is a REST service for a library's book catalogue, stored in a document store.
It offers five operations under `/books`:

- create a book (`POST /books`);
- list the books a page at a time (`GET /books?page=&size=`);
- read one book (`GET /books/{id}`);
- update one book with a partial body (`POST /books/{id}`);
- delete one book (`DELETE /books/{id}`).

A book has a title, an author, an ISBN of exactly 13 digits and a publication date that is not in the future.
The store keeps a unique index on the ISBN. Ids are 24-character hexadecimal object ids. The store spells them in lower case and finds a book under any spelling of its id.
Every failure goes through one global exception handler, which maps it to a status and a JSON error body.

The model has one module per part of the system:

- `Model`: the `Book` entity, a class whose fields the mapper and the store update in place, and its value `BookData`.
- `CreateRequest`, `UpdateRequest`: the two request bodies and the constraint violations a validator reports for them.
- `Mapper`: entity creation, in-place patching, rendering (dates as `dd-MM-yyyy`) and list conversion.
- `Paging`: page slicing, the page count and the paged response.
- `Exceptions`: the two application exceptions and their messages.
- `Errors`: the failure kinds and the global handler.
- `Service`: `BookService`, a class over the store, a map from id to `BookData` with the unique ISBN index as its invariant `Valid()`.
- `Controller`: list-parameter defaults and `@Min(0)`, validation before the service runs, and the status, Location and body of each endpoint.
- Support modules: `Dates` (ISO calendar dates, formatting and parsing), `Decimal` (integer to text), `ObjectIds` (the id format), `Constraints` (the bean-validation checks used), `Wrappers` (`Option`, `Result`).

The model takes several things as parameters:

- the current date (`today`) for `@PastOrPresent`;
- the id the store generates for a new book (`newId`);
- the order the store lists books in (`order`);
- the request URL the Location header is built from;
- the text of the store's duplicate-key error;
- the text of the converter's error for a list parameter outside the Java `int` range.

Java `null` is `None`. An exception is an `Errors.ErrorKind` value that the controller passes to `Errors.Handle`.

## Model

| member | source | states |
|---|---|---|
| Model.Book.constructor | src/main/java/com/library/model/Book.java:21-60 | a new entity has no id yet and exactly the given title, author, isbn and date |
| Model.PutPreservesIsbnUnique | src/main/java/com/library/model/Book.java:49-53 | writing a book whose isbn no other stored book holds keeps the unique isbn index intact |
| Model.IsbnUniqueIffNoClash | src/main/java/com/library/model/Book.java:50 | the unique index holds exactly when no stored book's isbn is held under another key, the test the store applies on each write |
| Model.ConformsWithThirteenDigitIsbn | src/main/java/com/library/model/Book.java:35-60 | with a 13-digit isbn, the isbn's own constraints (not blank, 13 characters) hold, and the entity conforms exactly when title and author are not blank and the date is not after today |
| CreateRequest.Violations | src/main/java/com/library/dto/CreateBookRequestDTO.java:20-42 | each of the six messages is reported exactly when its constraint fails: blank title, blank author, blank isbn, an isbn that is present but not 13 digits, a missing date, a future date; no other error is reported |
| CreateRequest.ViolationsReportEachOnce | src/main/java/com/library/dto/CreateBookRequestDTO.java:20-42 | no message appears twice in the list |
| CreateRequest.IsbnViolations | src/main/java/com/library/dto/CreateBookRequestDTO.java:32-34 | "ISBN is required." exactly when the isbn is blank; the pattern message exactly when it is present and not 13 digits; both concern field isbn |
| CreateRequest.DateViolations | src/main/java/com/library/dto/CreateBookRequestDTO.java:40-41 | the required message exactly when the date is missing; the future message exactly when it is after today; both concern field publishedDate |
| CreateRequest.AcceptedIffNoViolations | src/main/java/com/library/dto/CreateBookRequestDTO.java:20-42 | the validator reports nothing exactly when every constraint holds |
| CreateRequest.AcceptedIsComplete | src/main/java/com/library/dto/CreateBookRequestDTO.java:20-42 | an accepted create body has every field present |
| CreateRequest.MissingIsbnReportsOnlyRequired | src/main/java/com/library/dto/CreateBookRequestDTO.java:32-34 | a missing isbn is reported as required, and the pattern (which accepts null) does not fire |
| CreateRequest.MessagesDistinct | src/main/java/com/library/dto/CreateBookRequestDTO.java:20-41 | the six (field, message) errors a create request can report are pairwise different |
| Constraints.ThirteenDigitsNotBlank | src/main/java/com/library/dto/CreateBookRequestDTO.java:32-34 | an isbn that matches the 13-digit pattern is never blank |
| Constraints.BlankIffTrimmedEmpty | src/main/java/com/library/dto/CreateBookRequestDTO.java:20 | a present value is blank exactly when Java's trim() (strip characters at most U+0020 from both ends) leaves nothing |
| Constraints.TrimStart | src/main/java/com/library/dto/CreateBookRequestDTO.java:20 | trim()'s leading part: the result is a suffix, starts above U+0020, and everything removed is at most U+0020 |
| Constraints.TrimEnd | src/main/java/com/library/dto/CreateBookRequestDTO.java:20 | trim()'s trailing part: the result is a prefix, ends above U+0020, and everything removed is at most U+0020 |
| Constraints.MatchesDigitsIff | src/main/java/com/library/dto/CreateBookRequestDTO.java:34 | the whole-text match of \\d repeated n times accepts exactly the texts of n ASCII digits |
| Constraints.ThirteenDigitsIsPattern | src/main/java/com/library/dto/CreateBookRequestDTO.java:34 | the isbn pattern accepts exactly the texts of 13 digits |
| Constraints.Check | src/main/java/com/library/dto/CreateBookRequestDTO.java:20-21 | one constraint reports its error exactly when it does not hold, and nothing else |
| UpdateRequest.Violations | src/main/java/com/library/dto/UpdateBookRequestDTO.java:31-39 | the pattern error exactly when an isbn is given and is not 13 digits; the past-or-present error exactly when a date is given and is after today; nothing else; each violated constraint reported exactly once, so the list's length is the number of violated constraints; no errors exactly when the body is accepted |
| UpdateRequest.TitleAndAuthorUnconstrained | src/main/java/com/library/dto/UpdateBookRequestDTO.java:18-26 | the title and author of an update body never change what the validator reports |
| UpdateRequest.EmptyIsValid | src/main/java/com/library/dto/UpdateBookRequestDTO.java:16-40 | an update body with every field null is accepted |
| UpdateRequest.IsbnOnlyIsValid | src/main/java/com/library/dto/UpdateBookRequestDTO.java:31-33 | a body holding only a 13-digit isbn is accepted |
| Mapper.ToEntity | src/main/java/com/library/dto/BookMapper.java:20-21 | a fresh entity with no id and the request's four fields |
| Mapper.Render | src/main/java/com/library/dto/BookMapper.java:29-30 | the response carries the entity's id, title, author and isbn unchanged, and a date of the form dd-MM-yyyy that parses back to the stored date |
| Mapper.ToResponse | src/main/java/com/library/dto/BookMapper.java:29-30 | the response of an entity object carries its id, title, author and isbn, and a date text that parses back to its date |
| Dates.Format | src/main/java/com/library/dto/BookMapper.java:29-30 | the dd-MM-yyyy text is 10 characters, dashes at positions 2 and 5, digits elsewhere, and parses back to the date |
| Dates.FormatParse | src/main/java/com/library/dto/BookMapper.java:29-30 | every text that parses as a date is exactly the format of that date, so formatting and parsing are inverse |
| Dates.IsAfterIsStrictTotalOrder | src/main/java/com/library/dto/CreateBookRequestDTO.java:40 | "after" on dates is irreflexive, asymmetric, transitive and total, as `@PastOrPresent` compares them |
| Mapper.Patched | src/main/java/com/library/dto/BookMapper.java:38-40 | each field of the patched book is the request's value when present and the old value when null |
| Mapper.UpdateEntity | src/main/java/com/library/dto/BookMapper.java:38-40 | the same entity is returned, its id is untouched and its fields become the patch of the old ones |
| Mapper.ToEntityList | src/main/java/com/library/dto/BookMapper.java:48-49 | one fresh entity per request, in order, pairwise distinct, with no id and that request's fields |
| Mapper.EmptyPatchIsIdentity | src/main/java/com/library/dto/BookMapper.java:38-40 | an all-null update body changes nothing |
| Mapper.PatchIsIdempotent | src/main/java/com/library/dto/BookMapper.java:38-40 | applying the same update twice equals applying it once |
| Mapper.CreateRoundTrip | src/main/java/com/library/dto/BookMapper.java:20-30 | rendering a book mapped from a create body gives back that body's title, author, isbn and date |
| Mapper.AcceptedCreateConforms | src/main/java/com/library/model/Book.java:35-60 | a book built from an accepted create body satisfies the entity's own constraints |
| Mapper.AcceptedUpdateKeepsIsbnAndDate | src/main/java/com/library/dto/UpdateBookRequestDTO.java:31-39 | an accepted update keeps a 13-digit isbn and a date not after today |
| Mapper.AcceptedUpdateCanBlankTitle | src/main/java/com/library/dto/UpdateBookRequestDTO.java:18-21 | an accepted update can give a stored book a blank title, which the entity forbids |
| Paging.TotalPages | src/main/java/com/library/dto/PagedBookResponse.java:26 | the page count is the ceiling of total / size: enough pages for every book, no empty last page, and zero exactly when there are no books |
| Paging.PageBelowTotal | src/main/java/com/library/dto/PagedBookResponse.java:26 | a page number is below the page count exactly when its first item exists |
| Paging.PageOf | src/main/java/com/library/service/BookService.java:53 | a page holds at most size items, item i of page p is listing item p*size+i, it is non-empty exactly when p is below the page count, and every page before the last is full |
| Paging.PagesArePrefix | src/main/java/com/library/service/BookService.java:53 | the first k pages together are the first k*size items of the listing |
| Paging.AllPagesCoverListing | src/main/java/com/library/service/BookService.java:53 | all pages together, in order, are exactly the listing |
| Paging.From | src/main/java/com/library/dto/PagedBookResponse.java:22-28 | the response has the page's content, number and total, and a page count that is the ceiling of total / size |
| Paging.TotalPagesExamples | src/main/java/com/library/dto/PagedBookResponse.java:26 | 3 books at 2 a page need 2 pages, and no books need 0 pages |
| Exceptions.InvalidObjectIdMessage | src/main/java/com/library/exception/InvalidObjectIdException.java:16-18 | the message starts "The ID: <id> is not valid" and the id can be read back from it |
| Exceptions.BookNotFoundMessage | src/main/java/com/library/exception/BookNotFoundException.java:16-17 | the message starts "Book with ID: <id>" and the id can be read back from it |
| Exceptions.Unfill | src/main/java/com/library/exception/BookNotFoundException.java:17 | whatever is read back from a message fills the template to give that message again |
| Exceptions.UnfillFill | src/main/java/com/library/exception/BookNotFoundException.java:17 | reading back a filled template gives the argument |
| Exceptions.MessagesDetermineId | src/main/java/com/library/exception/InvalidObjectIdException.java:16-18 | two different ids never give the same message, for either exception |
| ObjectIds.Canonical | src/main/java/com/library/service/BookService.java:114 | the store's spelling of an id is the same length, lower-cases each hex letter, and stays a valid id with the same digit values |
| ObjectIds.CanonicalIffSameDigits | src/main/java/com/library/service/BookService.java:110-114 | two valid ids name the same object exactly when their canonical spellings agree, and a canonical spelling is itself canonical |
| ObjectIds.UpperCaseSpellingExample | src/main/java/com/library/service/BookService.java:110-114 | an upper-case id is valid and names the object stored under its lower-case spelling |
| Errors.Handle | src/main/java/com/library/advice/GlobalExceptionHandler.java:38-182 | the body's status equals the HTTP status; client failures are 4xx and the rest 5xx; only the two validation failures carry an error list; not found is 404 and an invalid id 400, each with its exception's message; a duplicate is 409 with the store's own error text; a rejected body is 400 with the fixed message and one entry per field error; rejected parameters are 400 with the reason and one entry per parameter; a timeout is 503; an unreadable or missing body is 400; anything else is 500 |
| Errors.FieldErrorsToList | src/main/java/com/library/advice/GlobalExceptionHandler.java:92-99 | one error per field error, in order, with its field and message |
| Errors.ParameterErrorsToList | src/main/java/com/library/advice/GlobalExceptionHandler.java:130-134 | one error per rejected parameter, in order, named after it, with "The value <argument> is not valid." |
| Decimal.IntToString | src/main/java/com/library/advice/GlobalExceptionHandler.java:133 | the argument's decimal text: a leading minus exactly for negatives, then digits without leading zeros whose value is the magnitude |
| Errors.NegativeArgumentMessage | src/main/java/com/library/advice/GlobalExceptionHandler.java:130-133 | a page of -1 is reported as "The value -1 is not valid." |
| Service.BookService.constructor | src/main/java/com/library/service/BookService.java:25-29 | a service over a store that satisfies the unique isbn index, with every key a valid id in lower case |
| Service.BookService.ValidateBook | src/main/java/com/library/service/BookService.java:109-116 | a malformed id fails as invalid whatever is stored; a valid id is looked up by the object it names, so any spelling finds the book; otherwise it fails as not found; both failures quote the id as given; a found book is a fresh entity with the stored spelling of its id |
| Service.BookService.Save | src/main/java/com/library/service/BookService.java:40 | the entity is written under its id, or under the new id it is then given; the store refuses an isbn another book holds, with its own error text, and then changes nothing; the unique index is kept |
| Service.BookService.CreateBook | src/main/java/com/library/service/BookService.java:38-43 | when no stored book holds the isbn, exactly one book is added under the new id and its response is returned; otherwise a duplicate-key failure and no change; the index is kept |
| Service.BookService.GetAllBooks | src/main/java/com/library/service/BookService.java:52-56 | the page has the requested number and size, the store's total, at most size books, and book i is the rendering of listing item page*size+i |
| Service.BookService.UpdateBook | src/main/java/com/library/service/BookService.java:66-75 | invalid and unknown ids fail with no change; otherwise, for any spelling of a stored id: if another book holds the patched isbn, a duplicate-key failure and no change; otherwise the book under the stored id becomes the patch, nothing else changes, and its response carries the stored id |
| Service.BookService.GetBookById | src/main/java/com/library/service/BookService.java:83-88 | for any spelling of a stored id, the response of the book with its stored id; otherwise the invalid-id or not-found failure |
| Service.BookService.DeleteBook | src/main/java/com/library/service/BookService.java:95-100 | invalid and unknown ids fail with no change; otherwise exactly the book the id names, under any spelling, is removed |
| Controller.MinViolations | src/main/java/com/library/controller/BookController.java:85-86 | exactly one result per negative parameter, page before size, each naming its parameter and quoting its negative value |
| Controller.ListParameters | src/main/java/com/library/controller/BookController.java:85-86 | a missing page is 0 and a missing size 10; a value outside the Java int range is a conversion failure reported by the generic handler; otherwise accepted exactly when both are non-negative, else a parameter-validation failure listing the negative ones |
| Controller.OutOfRangePageExample | src/main/java/com/library/controller/BookController.java:85 | a page of 3000000000 is a conversion failure, reported as a 500, not an empty page |
| Controller.CreateBook | src/main/java/com/library/controller/BookController.java:57-66 | an unreadable or invalid body is a 400 and the store is unchanged; otherwise 201 with Location <request URL>/<new id> and the new book, or 409 for a duplicate isbn and no change |
| Controller.GetAllBooks | src/main/java/com/library/controller/BookController.java:85-89 | 500 for a value outside the Java int range; 400 for a negative parameter; 500 for size 0; otherwise 200 with the requested page of the listing, its number, the page count and the total |
| Controller.PageReply | src/main/java/com/library/controller/BookController.java:88-89 | the 200 reply of the list endpoint: the requested page number, the store's total, the page count ceil(total / size), at most size books, and book i is the rendering of listing item page*size+i |
| Controller.GetBookById | src/main/java/com/library/controller/BookController.java:110-115 | 200 with the stored book for any spelling of its id, 400 for a malformed id, 404 for an unknown one |
| Controller.UpdateBook | src/main/java/com/library/controller/BookController.java:137-143 | the body is checked before the id: an unreadable or invalid body is a 400 with no change; then 400, 404 or 409 with no change, or 200 with the patched book stored under the id it names, in any spelling |
| Controller.DeleteBook | src/main/java/com/library/controller/BookController.java:163-168 | 204 with no body once exactly the book the id names, in any spelling, is removed; 400 or 404 with no change |

## Left out

- The document store itself is not modelled: it is a map from id to book fields, with the unique isbn index as the service's invariant. Driver behaviour, write concerns and indexes other than the isbn one are not part of this model.
- Object-id generation is not modelled: the new id is a parameter, assumed well-formed, in lower case and unused.
- The store's listing order is a parameter (any order listing every stored id once), because the natural order of the store is not specified.
- Store timeouts are not modelled: the service never produces one, and only `Errors.Handle` covers the timeout case.
- Service.BookService.Save: the text of the store's duplicate-key error is defined by the store's driver. It is a parameter, which the handler copies into the 409 body unchanged.
- Controller.GetAllBooks: for a page size of 0 the paging library throws `IllegalArgumentException`, which reaches the generic handler as a 500. The model gives only that status and the library's message.
- Java `int` and `long` overflow of `page * size` and of the page count is not modelled, because integers are unbounded here.
- Controller.ListParameters: a query value that is not a number at all also fails conversion in the source; the model takes the parameters as integers, so only the out-of-range case is modelled. The converter's error text is a parameter.
- Framework glue is not modelled: JSON reading, bean-validation dispatch, `ServletUriComponentsBuilder` and `ResponseEntity` building. A body the JSON reader rejects is given as `Unreadable(message)`. Whether the root cause is a `DateTimeParseException` only changes which message it carries, so that choice is not modelled.
- CreateRequest.Violations: the order in which the validator reports violations is not fixed by the framework. The model lists them field by field, in declaration order, and states only which errors appear, each once.
- UpdateRequest.Violations: `@PastOrPresent` without a message uses the default text "must be a date in the past or in the present". With the English locale, that text comes from the validator library's default message bundle, not from the application; the framework picks the bundle from the request's locale, which is not modelled.
- Mapper.ToEntity: requires a complete request. With a null field, Lombok's `@NonNull` makes the generated constructor throw a `NullPointerException`, which the model does not reproduce. On the create endpoint, validation rejects such bodies before the mapper runs.
- Mapper.ToEntityList: requires every request to be complete. Its caller, the startup data seeder, maps the entries of its JSON file without validation, so an incomplete entry there throws `NullPointerException` in the source. The model does not include that exception, because the seeder's file I/O is not part of this model.
- Dates.Format: only years 1 to 9999 are modelled. Request dates reach the model as date values, so the JSON reader's parsing of the request text is not modelled. `Dates.Parse` is a strict reader of the `dd-MM-yyyy` response text, used only to state that rendering loses nothing.
- The clock is a parameter (`today`). Concurrency between requests is not modelled: each operation runs alone against the store.
- Logging, the startup data seeder (file I/O), the OpenAPI annotations and the repository interface are not part of this model.
