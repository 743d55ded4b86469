/** The two exceptions the service throws for an identifier: their messages and status tags. */
module Exceptions {
  import opened Wrappers

  /** `@ResponseStatus(HttpStatus.BAD_REQUEST)` on `InvalidObjectIdException`. */
  const InvalidObjectIdStatus := 400
  /** `@ResponseStatus(HttpStatus.NOT_FOUND)` on `BookNotFoundException`. */
  const BookNotFoundStatus := 404

  const InvalidIdPrefix := "The ID: "
  const IsNotValid := " is not valid"
  /** Note the doubled "must be", kept as the source has it. */
  const InvalidIdSuffix := IsNotValid + ", it must be must be a valid 24-character hex string"
  const NotFoundPrefix := "Book with ID: "
  const NotFoundSuffix := " was not found"

  /** `String.format(prefix + "%s" + suffix, arg)` for a string argument. */
  function Fill(prefix: string, suffix: string, arg: string): string {
    prefix + arg + suffix
  }

  /** The argument of a message built by `Fill`, if `m` has that shape. */
  function Unfill(prefix: string, suffix: string, m: string): (r: Option<string>)
    ensures r.Some? ==> Fill(prefix, suffix, r.value) == m
  {
    if |prefix| + |suffix| <= |m| && m[..|prefix|] == prefix && m[|m| - |suffix|..] == suffix then
      var arg := m[|prefix|..|m| - |suffix|];
      assert m == m[..|prefix|] + arg + m[|m| - |suffix|..];
      Some(arg)
    else None
  }

  lemma {:induction false} UnfillFill(prefix: string, suffix: string, arg: string)
    ensures Unfill(prefix, suffix, Fill(prefix, suffix, arg)) == Some(arg)
  {
    var m := Fill(prefix, suffix, arg);
    assert m[..|prefix|] == prefix;
    assert m[|m| - |suffix|..] == suffix;
    assert m[|prefix|..|m| - |suffix|] == arg;
  }

  /**
   * The message of `InvalidObjectIdException(id)`: it starts with
   * "The ID: <id> is not valid" and carries the id verbatim.
   */
  function InvalidObjectIdMessage(id: string): (m: string)
    ensures InvalidIdPrefix + id + IsNotValid <= m
    ensures Unfill(InvalidIdPrefix, InvalidIdSuffix, m) == Some(id)
  {
    UnfillFill(InvalidIdPrefix, InvalidIdSuffix, id);
    assert Fill(InvalidIdPrefix, InvalidIdSuffix, id)
      == (InvalidIdPrefix + id + IsNotValid) + ", it must be must be a valid 24-character hex string";
    Fill(InvalidIdPrefix, InvalidIdSuffix, id)
  }

  /** The message of `BookNotFoundException(id)`: "Book with ID: <id> was not found", id verbatim. */
  function BookNotFoundMessage(id: string): (m: string)
    ensures NotFoundPrefix + id <= m
    ensures Unfill(NotFoundPrefix, NotFoundSuffix, m) == Some(id)
  {
    UnfillFill(NotFoundPrefix, NotFoundSuffix, id);
    Fill(NotFoundPrefix, NotFoundSuffix, id)
  }

  /** Distinct ids give distinct messages, for both exceptions. */
  lemma {:induction false} MessagesDetermineId(id1: string, id2: string)
    ensures InvalidObjectIdMessage(id1) == InvalidObjectIdMessage(id2) ==> id1 == id2
    ensures BookNotFoundMessage(id1) == BookNotFoundMessage(id2) ==> id1 == id2
  {
  }
}
