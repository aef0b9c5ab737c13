/**
 * Ordinal (code-point lexicographic) comparison of strings, the ordering the
 * model uses for `String.Compare` and `string.CompareTo`.
 */
module Ordinal {

  /** Three-way comparison of two characters by code point. */
  function CompareChar(a: char, b: char): (r: int)
    ensures r == -1 || r == 0 || r == 1
    ensures r == 0 <==> a == b
    ensures r == -1 <==> a < b
  {
    if a < b then -1 else if a == b then 0 else 1
  }

  /**
   * Lexicographic three-way comparison: -1 when `a` sorts first, 0 when the
   * strings are equal, 1 when `b` sorts first. A proper prefix sorts first.
   */
  function Compare(a: string, b: string): (r: int)
    ensures r == -1 || r == 0 || r == 1
    ensures r == 0 <==> a == b
  {
    if a == [] && b == [] then 0
    else if a == [] then -1
    else if b == [] then 1
    else if a[0] != b[0] then CompareChar(a[0], b[0])
    else
      var rest := Compare(a[1..], b[1..]);
      assert rest == 0 ==> a == [a[0]] + a[1..] && b == [b[0]] + b[1..];
      rest
  }

  /** Swapping the operands flips the sign of the comparison. */
  lemma {:induction false} CompareAntisymmetric(a: string, b: string)
    ensures Compare(b, a) == -Compare(a, b)
  {
    if a != [] && b != [] && a[0] == b[0] {
      CompareAntisymmetric(a[1..], b[1..]);
    }
  }

  /** "Sorts no later than" is transitive. */
  lemma {:induction false} CompareTransitive(a: string, b: string, c: string)
    requires Compare(a, b) <= 0 && Compare(b, c) <= 0
    ensures Compare(a, c) <= 0
  {
    if a != [] && b != [] && c != [] && a[0] == b[0] && b[0] == c[0] {
      CompareTransitive(a[1..], b[1..], c[1..]);
    }
  }

  /** "Sorts strictly before" is transitive. */
  lemma {:induction false} CompareStrictTransitive(a: string, b: string, c: string)
    requires Compare(a, b) < 0 && Compare(b, c) < 0
    ensures Compare(a, c) < 0
  {
    CompareTransitive(a, b, c);
    if Compare(a, c) == 0 {
      assert a == c;
      CompareAntisymmetric(b, c);
      assert false;
    }
  }
}
