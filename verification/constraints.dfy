/**
 * The Jakarta Bean Validation constraints used on the request bodies, as
 * predicates, and the (field, message) pair a failed constraint reports.
 */
module Constraints {
  import opened Wrappers
  import opened Decimal
  import opened Dates

  /** One failed field constraint: the field's name and the constraint's message. */
  datatype FieldError = FieldError(field: string, message: string)

  /** `@NotBlank` fails on null and on text whose `trim()` is empty (every character at most U+0020). */
  predicate IsBlank(s: Option<string>) {
    s.None? || forall i | 0 <= i < |s.value| :: s.value[i] <= ' '
  }

  /** `@Pattern(regexp = "\\d{13}")` matched against the whole value. */
  predicate IsThirteenDigits(s: string) {
    |s| == 13 && AllDigits(s)
  }

  /** A value matching the isbn pattern is never blank. */
  lemma ThirteenDigitsNotBlank(s: string)
    ensures IsThirteenDigits(s) ==> !IsBlank(Some(s))
  {
    if IsThirteenDigits(s) {
      assert IsDigit(s[0]);
    }
  }

  /** `String.trim()` without its trailing part: the leading characters at most U+0020 removed. */
  function TrimStart(s: string): (r: string)
    ensures |r| <= |s| && r == s[|s| - |r|..]
    ensures r != [] ==> r[0] > ' '
    ensures forall i | 0 <= i < |s| - |r| :: s[i] <= ' '
  {
    if s != [] && s[0] <= ' ' then TrimStart(s[1..]) else s
  }

  /** The trailing characters at most U+0020 removed. */
  function TrimEnd(s: string): (r: string)
    ensures |r| <= |s| && r == s[..|r|]
    ensures r != [] ==> r[|r| - 1] > ' '
    ensures forall i | |r| <= i < |s| :: s[i] <= ' '
  {
    if s != [] && s[|s| - 1] <= ' ' then TrimEnd(s[..|s| - 1]) else s
  }

  /** `String.trim()`: both ends stripped of characters at most U+0020. */
  function Trim(s: string): string {
    TrimEnd(TrimStart(s))
  }

  /** A present value is blank exactly when `trim()` leaves nothing, as `@NotBlank` decides it. */
  lemma BlankIffTrimmedEmpty(s: string)
    ensures IsBlank(Some(s)) <==> Trim(s) == []
  {
  }

  /** `\d{n}` matched against the whole text: n repetitions of `\d` and nothing after them. */
  predicate MatchesDigits(s: string, n: nat)
    decreases n
  {
    if n == 0 then s == [] else s != [] && IsDigit(s[0]) && MatchesDigits(s[1..], n - 1)
  }

  /** The repetition matches exactly the texts of n digits. */
  lemma {:induction false} MatchesDigitsIff(s: string, n: nat)
    ensures MatchesDigits(s, n) <==> |s| == n && AllDigits(s)
    decreases n
  {
    if n > 0 && s != [] {
      MatchesDigitsIff(s[1..], n - 1);
      if AllDigits(s[1..]) && IsDigit(s[0]) {
        assert forall i | 0 < i < |s| :: s[i] == s[1..][i - 1];
      }
    }
  }

  /** The isbn pattern accepts exactly the texts of 13 digits. */
  lemma ThirteenDigitsIsPattern(s: string)
    ensures MatchesDigits(s, 13) <==> IsThirteenDigits(s)
  {
    MatchesDigitsIff(s, 13);
  }

  /** `@Pattern` accepts null. */
  predicate PatternHolds(s: Option<string>) {
    s.None? || IsThirteenDigits(s.value)
  }

  /** `@PastOrPresent` accepts null and any date that is not after today. */
  predicate PastOrPresentHolds(d: Option<LocalDate>, today: LocalDate) {
    d.None? || !IsAfter(d.value, today)
  }

  /** The isbn pattern's message, shared by the create and update requests. */
  const IsbnPatternError := FieldError("isbn", "ISBN must be exactly 13 digits")

  /** The error list of one constraint: empty when it holds. */
  function Check(holds: bool, e: FieldError): (r: seq<FieldError>)
    ensures !holds <==> e in r
    ensures forall x | x in r :: x == e
    ensures |r| <= 1
  {
    if holds then [] else [e]
  }
}
