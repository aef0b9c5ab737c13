/**
 * The ISBN shape check: a switch on the length of the string, then an
 * unanchored match against one of two fixed-width digit/hyphen patterns.
 * There is no check-digit arithmetic.
 */
module IsbnVerifier {

  /**
   * First code points of the ten-character runs of Unicode decimal digits
   * (general category Nd) in the Basic Multilingual Plane, as of Unicode 15.
   * .NET `\d` tests UTF-16 code units, so digits outside this plane never match.
   */
  const DigitRunStarts: seq<int> := [
    0x0030, 0x0660, 0x06F0, 0x07C0, 0x0966, 0x09E6, 0x0A66, 0x0AE6, 0x0B66, 0x0BE6,
    0x0C66, 0x0CE6, 0x0D66, 0x0DE6, 0x0E50, 0x0ED0, 0x0F20, 0x1040, 0x1090, 0x17E0,
    0x1810, 0x1946, 0x19D0, 0x1A80, 0x1A90, 0x1B50, 0x1BB0, 0x1C40, 0x1C50, 0xA620,
    0xA8D0, 0xA900, 0xA9D0, 0xA9F0, 0xAA50, 0xABF0, 0xFF10]

  /** The character class `\d`. */
  predicate IsDecimalDigit(c: char) {
    exists i :: 0 <= i < |DigitRunStarts| && DigitRunStarts[i] <= c as int <= DigitRunStarts[i] + 9
  }

  /** `\d` accepts the ASCII digits and rejects the hyphen. */
  lemma DecimalDigitBasics()
    ensures forall c: char :: '0' <= c <= '9' ==> IsDecimalDigit(c)
    ensures !IsDecimalDigit('-')
  {
    assert DigitRunStarts[0] == 0x30;
    assert forall i :: 0 <= i < |DigitRunStarts| ==> DigitRunStarts[i] >= 0x30;
  }

  /** One position of a fixed-width pattern: `\d` or a literal hyphen. */
  datatype Slot = Digit | Hyphen

  predicate Accepts(slot: Slot, c: char) {
    match slot
    case Digit => IsDecimalDigit(c)
    case Hyphen => c == '-'
  }

  /** `\d-\d{3}-\d{5}-\d`, the ISBN-10 pattern: 13 characters wide. */
  const Isbn10Pattern: seq<Slot> :=
    [Digit, Hyphen, Digit, Digit, Digit, Hyphen, Digit, Digit, Digit, Digit, Digit, Hyphen, Digit]

  /** `\d{3}-\d-\d{3}-\d{5}-\d`, the ISBN-13 pattern: 17 characters wide. */
  const Isbn13Pattern: seq<Slot> :=
    [Digit, Digit, Digit, Hyphen, Digit, Hyphen, Digit, Digit, Digit, Hyphen,
     Digit, Digit, Digit, Digit, Digit, Hyphen, Digit]

  /** The pattern matches the characters of `s` starting at `start`. */
  predicate MatchesAt(s: string, pattern: seq<Slot>, start: nat) {
    start + |pattern| <= |s| &&
    forall j :: 0 <= j < |pattern| ==> Accepts(pattern[j], s[start + j])
  }

  /** `Regex.IsMatch` for a fixed-width pattern: a match anywhere in `s`. */
  predicate IsMatch(s: string, pattern: seq<Slot>) {
    exists start: nat :: start <= |s| && MatchesAt(s, pattern, start)
  }

  /** ISBN-10 shape, position by position: d-ddd-ddddd-d. */
  predicate Isbn10Shape(s: string) {
    |s| == 13 &&
    forall i :: 0 <= i < 13 ==> if i == 1 || i == 5 || i == 11 then s[i] == '-' else IsDecimalDigit(s[i])
  }

  /** ISBN-13 shape, position by position: ddd-d-ddd-ddddd-d. */
  predicate Isbn13Shape(s: string) {
    |s| == 17 &&
    forall i :: 0 <= i < 17 ==> if i == 3 || i == 5 || i == 9 || i == 15 then s[i] == '-' else IsDecimalDigit(s[i])
  }

  /** When the string is exactly as wide as the pattern, an unanchored match covers all of it. */
  lemma {:induction false} FullWidthMatch(s: string, pattern: seq<Slot>)
    requires |s| == |pattern|
    ensures IsMatch(s, pattern) <==> MatchesAt(s, pattern, 0)
  {
    if MatchesAt(s, pattern, 0) {
      assert IsMatch(s, pattern);
    }
  }

  /** The ISBN-10 pattern, matched from the first character, is the positional ISBN-10 shape. */
  lemma Isbn10PatternIsShape(s: string)
    requires |s| == 13
    ensures MatchesAt(s, Isbn10Pattern, 0) <==> Isbn10Shape(s)
  {
    forall j | 0 <= j < 13
      ensures Accepts(Isbn10Pattern[j], s[0 + j]) <==>
              if j == 1 || j == 5 || j == 11 then s[j] == '-' else IsDecimalDigit(s[j])
    {
      assert Isbn10Pattern[j] == if j == 1 || j == 5 || j == 11 then Hyphen else Digit;
    }
  }

  /** The ISBN-13 pattern, matched from the first character, is the positional ISBN-13 shape. */
  lemma Isbn13PatternIsShape(s: string)
    requires |s| == 17
    ensures MatchesAt(s, Isbn13Pattern, 0) <==> Isbn13Shape(s)
  {
    forall j | 0 <= j < 17
      ensures Accepts(Isbn13Pattern[j], s[0 + j]) <==>
              if j == 3 || j == 5 || j == 9 || j == 15 then s[j] == '-' else IsDecimalDigit(s[j])
    {
      assert Isbn13Pattern[j] == if j == 3 || j == 5 || j == 9 || j == 15 then Hyphen else Digit;
    }
  }

  /**
   * `IsbnVerifier.IsValid` on a non-null string: the empty string passes; a
   * string of length 13 or 17 passes when it has the ISBN-10 or ISBN-13 shape;
   * every other length fails.
   */
  function IsValid(isbn: string): (valid: bool)
    ensures valid <==> |isbn| == 0 || Isbn10Shape(isbn) || Isbn13Shape(isbn)
  {
    match |isbn|
    case 0 => true
    case 13 =>
      FullWidthMatch(isbn, Isbn10Pattern); Isbn10PatternIsShape(isbn);
      IsMatch(isbn, Isbn10Pattern)
    case 17 =>
      FullWidthMatch(isbn, Isbn13Pattern); Isbn13PatternIsShape(isbn);
      IsMatch(isbn, Isbn13Pattern)
    case _ => false
  }

  /** No checksum: any digit may stand in the last place of a valid ISBN. */
  lemma LastDigitIsFree(isbn: string, c: char)
    requires isbn != [] && IsValid(isbn)
    requires IsDecimalDigit(c)
    ensures IsValid(isbn[..|isbn| - 1] + [c])
  {
    var t := isbn[..|isbn| - 1] + [c];
    assert forall i :: 0 <= i < |isbn| - 1 ==> t[i] == isbn[i];
  }

  /** Strings the repository's tests accept. */
  lemma AcceptedExamples()
    ensures IsValid("")
    ensures IsValid("1-221-63415-1") && IsValid("3-384-14621-8")
    ensures IsValid("836-2-333-54457-9") && IsValid("473-4-888-11236-8")
  {
    DecimalDigitBasics();
  }

  /** Strings the repository's tests reject: wrong grouping at the right length, or a wrong length. */
  lemma RejectedExamples()
    ensures !IsValid("581-1-12113-757-5")
    ensures !IsValid("413-52-156-8")
    ensures !IsValid("3-1-448-1132132")
    ensures !IsValid("05332112-4121232-676-8912319043493843927")
  {
    assert "581-1-12113-757-5"[9] == '1';
  }
}
