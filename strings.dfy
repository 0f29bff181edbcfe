/**
  Lexicographic comparison of strings by character code, the order in which
  the detector sorts date strings, and the digit strings that ISO 8601 dates
  are made of.
 */
module Strings {

  /** Three-way comparison: negative, zero or positive as a sorts before,
      with or after b. A proper prefix sorts first. */
  function Compare(a: string, b: string): (r: int)
    ensures -1 <= r <= 1
    ensures r == 0 <==> a == b
  {
    if a == [] && b == [] then 0
    else if a == [] then -1
    else if b == [] then 1
    else if a[0] < b[0] then -1
    else if b[0] < a[0] then 1
    else
      assert a == [a[0]] + a[1..] && b == [b[0]] + b[1..];
      Compare(a[1..], b[1..])
  }

  /** Swapping the arguments negates the comparison. */
  lemma {:induction false} CompareAntisymmetric(a: string, b: string)
    ensures Compare(a, b) == -Compare(b, a)
  {
    if a != [] && b != [] && a[0] == b[0] {
      CompareAntisymmetric(a[1..], b[1..]);
    }
  }

  /** Comparison is transitive, so sorting by it is well defined. */
  lemma {:induction false} CompareTransitive(a: string, b: string, c: string)
    requires Compare(a, b) <= 0 && Compare(b, c) <= 0
    ensures Compare(a, c) <= 0
  {
    if a != [] && b != [] && c != [] && a[0] == b[0] == c[0] {
      CompareTransitive(a[1..], b[1..], c[1..]);
    }
  }

  /** Comparing two concatenations whose first parts have equal length
      compares the first parts, and the second parts only on a tie. */
  lemma {:induction false} CompareConcat(a1: string, a2: string, b1: string, b2: string)
    requires |a1| == |b1|
    ensures Compare(a1 + a2, b1 + b2) == if a1 == b1 then Compare(a2, b2) else Compare(a1, b1)
  {
    if a1 == [] {
      assert a1 + a2 == a2 && b1 + b2 == b2;
    } else {
      assert (a1 + a2)[0] == a1[0] && (b1 + b2)[0] == b1[0];
      assert (a1 + a2)[1..] == a1[1..] + a2;
      assert (b1 + b2)[1..] == b1[1..] + b2;
      CompareConcat(a1[1..], a2, b1[1..], b2);
      if a1[0] == b1[0] {
        assert a1 == b1 <==> a1[1..] == b1[1..] by {
          assert a1 == [a1[0]] + a1[1..] && b1 == [b1[0]] + b1[1..];
        }
      }
    }
  }

  /** Comparing two strings at a common split point n compares the parts
      before n, and the parts after n only on a tie. */
  lemma CompareSplit(a: string, b: string, n: nat)
    requires n <= |a| && n <= |b|
    ensures Compare(a, b) == if a[..n] == b[..n] then Compare(a[n..], b[n..]) else Compare(a[..n], b[..n])
  {
    assert a == a[..n] + a[n..] && b == b[..n] + b[n..];
    CompareConcat(a[..n], a[n..], b[..n], b[n..]);
  }

  predicate IsDigit(c: char) {
    '0' <= c <= '9'
  }

  predicate AllDigits(s: string) {
    forall i :: 0 <= i < |s| ==> IsDigit(s[i])
  }

  function DigitChar(d: int): (c: char)
    requires 0 <= d <= 9
    ensures IsDigit(c) && c as int - '0' as int == d
  {
    ('0' as int + d) as char
  }

  function Pow10(n: nat): (p: nat)
    ensures p >= 1
  {
    if n == 0 then 1 else 10 * Pow10(n - 1)
  }

  /** The number written by a string of decimal digits. */
  function DigitsValue(s: string): (v: int)
    requires AllDigits(s)
    ensures 0 <= v < Pow10(|s|)
  {
    if s == [] then 0
    else DigitsValue(s[..|s| - 1]) * 10 + (s[|s| - 1] as int - '0' as int)
  }

  /** v written with exactly w decimal digits, zero-padded on the left. */
  function Padded(v: nat, w: nat): (s: string)
    ensures |s| == w && AllDigits(s)
  {
    if w == 0 then [] else Padded(v / 10, w - 1) + [DigitChar(v % 10)]
  }

  /** Reading back a padded number gives the number. */
  lemma {:induction false} PaddedValue(v: nat, w: nat)
    requires v < Pow10(w)
    ensures DigitsValue(Padded(v, w)) == v
  {
    if w > 0 {
      PaddedValue(v / 10, w - 1);
      assert Padded(v, w)[..w - 1] == Padded(v / 10, w - 1);
    }
  }

  /** Padding the value of a digit string to its own length gives it back. */
  lemma {:induction false} DigitsPadded(s: string)
    requires AllDigits(s)
    ensures Padded(DigitsValue(s), |s|) == s
  {
    if s != [] {
      var p := s[..|s| - 1];
      var v := DigitsValue(s);
      assert v / 10 == DigitsValue(p) && v % 10 == s[|s| - 1] as int - '0' as int;
      DigitsPadded(p);
      assert s == p + [s[|s| - 1]];
    }
  }

  /** Digit strings of equal length compare as the numbers they write. */
  lemma {:induction false} CompareDigits(a: string, b: string)
    requires AllDigits(a) && AllDigits(b) && |a| == |b|
    ensures Compare(a, b) < 0 <==> DigitsValue(a) < DigitsValue(b)
    ensures a == b <==> DigitsValue(a) == DigitsValue(b)
  {
    if a != [] {
      var n := |a| - 1;
      CompareDigits(a[..n], b[..n]);
      CompareConcat(a[..n], [a[n]], b[..n], [b[n]]);
      assert a == a[..n] + [a[n]] && b == b[..n] + [b[n]];
    }
  }
}
