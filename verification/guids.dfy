/**
 * GUIDs and their canonical text form "xxxxxxxx-xxxx-xxxx-xxxx-xxxxxxxxxxxx"
 * (the "D" format of .NET's `Guid`). A GUID is identified with its 32
 * hexadecimal digits in lower case, which is what `Guid.ToString()` prints.
 */
module Guids {
  import opened Wrappers

  predicate IsLowerHexDigit(c: char) {
    '0' <= c <= '9' || 'a' <= c <= 'f'
  }

  /** Hexadecimal digits are accepted in either case when parsing. */
  predicate IsHexDigit(c: char) {
    IsLowerHexDigit(c) || 'A' <= c <= 'F'
  }

  function ToLowerHex(c: char): char {
    if 'A' <= c <= 'F' then (c as int - 'A' as int + 'a' as int) as char else c
  }

  predicate IsDigitString(s: string) {
    |s| == 32 && forall i :: 0 <= i < |s| ==> IsLowerHexDigit(s[i])
  }

  type Guid = s: string | IsDigitString(s) witness "00000000000000000000000000000000"

  /** Positions of the four hyphens in the 36-character text. */
  predicate IsHyphenAt(i: int) {
    i == 8 || i == 13 || i == 18 || i == 23
  }

  /** Position in the text of the `j`-th digit. */
  function DigitPosition(j: int): int {
    j + (if j >= 8 then 1 else 0) + (if j >= 12 then 1 else 0)
      + (if j >= 16 then 1 else 0) + (if j >= 20 then 1 else 0)
  }

  /** Which digit the (non-hyphen) character at text position `i` holds. */
  function DigitIndex(i: int): int {
    i - (if i > 8 then 1 else 0) - (if i > 13 then 1 else 0)
      - (if i > 18 then 1 else 0) - (if i > 23 then 1 else 0)
  }

  /** Well-formed "D" text: hyphens at the four fixed places, hex digits elsewhere. */
  predicate IsGuidText(s: string) {
    |s| == 36 && forall i :: 0 <= i < 36 ==> if IsHyphenAt(i) then s[i] == '-' else IsHexDigit(s[i])
  }

  /** `Guid.ToString()`. */
  function Format(g: Guid): (s: string)
    ensures IsGuidText(s)
    ensures forall i :: 0 <= i < 36 && !IsHyphenAt(i) ==> IsLowerHexDigit(s[i])
  {
    seq(36, i requires 0 <= i < 36 => if IsHyphenAt(i) then '-' else g[DigitIndex(i)])
  }

  /** `Guid.Parse` restricted to the "D" format; `None` is its `FormatException`. */
  function Parse(s: string): (r: Option<Guid>)
    ensures r.Some? <==> IsGuidText(s)
    ensures r.Some? ==> Format(r.value) == seq(|s|, i requires 0 <= i < |s| => ToLowerHex(s[i]))
  {
    if IsGuidText(s) then
      var digits := seq(32, j requires 0 <= j < 32 => ToLowerHex(s[DigitPosition(j)]));
      assert IsDigitString(digits) by {
        forall j | 0 <= j < 32 ensures IsLowerHexDigit(digits[j]) {
          assert !IsHyphenAt(DigitPosition(j));
        }
      }
      var lowered := seq(|s|, i requires 0 <= i < |s| => ToLowerHex(s[i]));
      assert Format(digits) == lowered by {
        forall i | 0 <= i < 36 ensures Format(digits)[i] == lowered[i] {
          if !IsHyphenAt(i) {
            assert DigitPosition(DigitIndex(i)) == i;
          }
        }
      }
      Some(digits)
    else
      None
  }

  /** Parsing the printed form of a GUID gives the GUID back. */
  lemma ParseFormat(g: Guid)
    ensures Parse(Format(g)) == Some(g)
  {
    var s := Format(g);
    forall j | 0 <= j < 32 ensures ToLowerHex(s[DigitPosition(j)]) == g[j] {
      assert DigitIndex(DigitPosition(j)) == j;
      assert !IsHyphenAt(DigitPosition(j));
    }
    assert Parse(s).value == g;
  }
}
