/**
 * The key format of the document store: `ObjectId.isValid`, a 24-character
 * hexadecimal string, and the value `new ObjectId(id)` reads from it, which
 * does not depend on the case of the letters.
 */
module ObjectIds {

  predicate IsHexDigit(c: char) {
    '0' <= c <= '9' || 'a' <= c <= 'f' || 'A' <= c <= 'F'
  }

  /** Exactly 24 characters, each a hexadecimal digit of either case. */
  predicate IsValid(id: string) {
    |id| == 24 && forall i | 0 <= i < |id| :: IsHexDigit(id[i])
  }

  /** The value of one hexadecimal digit. */
  function HexValue(c: char): (v: int)
    requires IsHexDigit(c)
    ensures 0 <= v < 16
  {
    if '0' <= c <= '9' then c as int - '0' as int
    else if 'a' <= c <= 'f' then c as int - 'a' as int + 10
    else c as int - 'A' as int + 10
  }

  /** The digits an id stands for: what `new ObjectId(id)` holds, whatever the case of its letters. */
  function Digits(id: string): (r: seq<int>)
    requires IsValid(id)
    ensures |r| == |id|
  {
    seq(|id|, i requires 0 <= i < |id| => HexValue(id[i]))
  }

  /** A hexadecimal letter in lower case; other characters unchanged. */
  function Lower(c: char): (l: char)
    ensures IsHexDigit(c) ==> IsHexDigit(l) && HexValue(l) == HexValue(c) && !('A' <= l <= 'F')
  {
    if 'A' <= c <= 'F' then (c as int - 'A' as int + 'a' as int) as char else c
  }

  /** The spelling of an id that the store keeps and returns (`ObjectId.toHexString`): lower-case hex. */
  function Canonical(id: string): (r: string)
    ensures |r| == |id|
    ensures forall i | 0 <= i < |id| :: r[i] == Lower(id[i])
    ensures IsValid(id) ==> IsValid(r) && Digits(r) == Digits(id)
  {
    seq(|id|, i requires 0 <= i < |id| => Lower(id[i]))
  }

  /** A well-formed id spelled as the store spells it. */
  predicate IsCanonical(id: string) {
    IsValid(id) && Canonical(id) == id
  }

  /** Two hexadecimal digits of the same value are equal once lower-cased. */
  lemma SameValueSameLower(a: char, b: char)
    requires IsHexDigit(a) && IsHexDigit(b)
    ensures Lower(a) == Lower(b) <==> HexValue(a) == HexValue(b)
  {
  }

  /**
   * Two well-formed ids name the same object exactly when their canonical
   * spellings agree, and a canonical spelling is already canonical.
   */
  lemma {:induction false} CanonicalIffSameDigits(a: string, b: string)
    requires IsValid(a) && IsValid(b)
    ensures Canonical(a) == Canonical(b) <==> Digits(a) == Digits(b)
    ensures IsCanonical(Canonical(a))
  {
    if Digits(a) == Digits(b) {
      forall i | 0 <= i < |a|
        ensures Canonical(a)[i] == Canonical(b)[i]
      {
        assert Digits(a)[i] == Digits(b)[i];
        SameValueSameLower(a[i], b[i]);
      }
    }
    if Canonical(a) == Canonical(b) {
      forall i | 0 <= i < |a|
        ensures Digits(a)[i] == Digits(b)[i]
      {
        assert Canonical(a)[i] == Canonical(b)[i];
        SameValueSameLower(a[i], b[i]);
      }
    }
  }

  /** An upper-case spelling of a stored id names the same object as the stored, lower-case one. */
  lemma UpperCaseSpellingExample()
    ensures IsValid("665A22D92FF54C05E8DB1234")
    ensures Canonical("665A22D92FF54C05E8DB1234") == "665a22d92ff54c05e8db1234"
  {
  }
}
