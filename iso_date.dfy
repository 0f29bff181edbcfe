/**
  Date-only strings of the Date Time String Format of ECMA-262 (section
  21.4.1.32): "YYYY-MM-DD", read as UTC midnight, and the date part that
  Date.prototype.toISOString writes back.
 */
module IsoDate {
  import opened Wrappers
  import opened Strings
  import opened Calendar

  /** The shape "DDDD-DD-DD" with D a decimal digit. */
  predicate WellFormed(s: string) {
    |s| == 10 && s[4] == '-' && s[7] == '-'
    && AllDigits(s[..4]) && AllDigits(s[5..7]) && AllDigits(s[8..])
  }

  /** The civil date written in s, if it is a date-only ISO string naming a
      day that exists; None where `new Date(s)` is an invalid date. */
  function Parse(s: string): (r: Option<Civil>)
    ensures r.Some? ==> WellFormed(s) && ValidCivil(r.value) && 0 <= r.value.year <= 9999
    ensures r.Some? ==> r.value == Civil(DigitsValue(s[..4]), DigitsValue(s[5..7]), DigitsValue(s[8..]))
    ensures WellFormed(s) && ValidCivil(Civil(DigitsValue(s[..4]), DigitsValue(s[5..7]), DigitsValue(s[8..]))) ==> r.Some?
  {
    if WellFormed(s) then
      var c := Civil(DigitsValue(s[..4]), DigitsValue(s[5..7]), DigitsValue(s[8..]));
      if ValidCivil(c) then Some(c) else None
    else None
  }

  /** The year as toISOString writes it: four digits for years 0 to 9999,
      otherwise a sign and six digits. */
  function YearText(y: int): (s: string)
    ensures 0 <= y <= 9999 ==> |s| == 4
    ensures !(0 <= y <= 9999) ==> |s| == 7
  {
    if 0 <= y <= 9999 then Padded(y, 4)
    else (if y < 0 then "-" else "+") + Padded(if y < 0 then -y else y, 6)
  }

  function DateText(c: Civil): (s: string)
    requires ValidCivil(c)
  {
    YearText(c.year) + "-" + Padded(c.month, 2) + "-" + Padded(c.day, 2)
  }

  /** toISOString of the time value at UTC midnight of day c. */
  function ToIsoString(c: Civil): (s: string)
    requires ValidCivil(c)
    ensures |s| >= 10
    ensures 0 <= c.year <= 9999 ==> s[..10] == DateText(c)
  {
    var d := DateText(c);
    assert |d| >= 10;
    assert (d + "T00:00:00.000Z")[..|d|] == d;
    d + "T00:00:00.000Z"
  }

  /** Writing a date with a four-digit year and reading it back gives the date. */
  lemma ParseDateText(c: Civil)
    requires ValidCivil(c) && 0 <= c.year <= 9999
    ensures Parse(DateText(c)) == Some(c)
  {
    var s := DateText(c);
    var y, m, d := Padded(c.year, 4), Padded(c.month, 2), Padded(c.day, 2);
    assert s == y + "-" + m + "-" + d;
    assert s[..4] == y && s[5..7] == m && s[8..] == d;
    assert WellFormed(s);
    PaddedValue(c.year, 4);
    PaddedValue(c.month, 2);
    PaddedValue(c.day, 2);
    assert Civil(DigitsValue(s[..4]), DigitsValue(s[5..7]), DigitsValue(s[8..])) == c;
  }

  /** A string that parses is exactly how its date is written back. */
  lemma DateTextParse(s: string)
    requires Parse(s).Some?
    ensures DateText(Parse(s).value) == s
  {
    var c := Parse(s).value;
    DigitsPadded(s[..4]);
    DigitsPadded(s[5..7]);
    DigitsPadded(s[8..]);
    assert YearText(c.year) == s[..4];
    assert Padded(c.month, 2) == s[5..7];
    assert Padded(c.day, 2) == s[8..];
    assert s == s[..4] + "-" + s[5..7] + "-" + s[8..];
  }

  /** For strings that parse, string order is chronological order. */
  lemma ChronologicalOrder(a: string, b: string)
    requires Parse(a).Some? && Parse(b).Some?
    ensures Compare(a, b) < 0 <==> DayNumber(Parse(a).value) < DayNumber(Parse(b).value)
    ensures a == b <==> DayNumber(Parse(a).value) == DayNumber(Parse(b).value)
  {
    DayNumberOrder(Parse(a).value, Parse(b).value);
    CompareFields(a, b);
    CompareDigits(a[..4], b[..4]);
    CompareDigits(a[5..7], b[5..7]);
    CompareDigits(a[8..], b[8..]);
    assert a == a[..4] + "-" + a[5..7] + "-" + a[8..];
    assert b == b[..4] + "-" + b[5..7] + "-" + b[8..];
  }

  /** Well-formed date strings compare by year digits, then month digits,
      then day digits. */
  lemma CompareFields(a: string, b: string)
    requires WellFormed(a) && WellFormed(b)
    ensures Compare(a, b) == if a[..4] != b[..4] then Compare(a[..4], b[..4])
      else if a[5..7] != b[5..7] then Compare(a[5..7], b[5..7])
      else Compare(a[8..], b[8..])
  {
    CompareSplit(a, b, 4);
    CompareSplit(a[4..], b[4..], 1);
    CompareSplit(a[5..], b[5..], 2);
    CompareSplit(a[7..], b[7..], 1);
    assert a[4..][..1] == b[4..][..1] == "-" && a[7..][..1] == b[7..][..1] == "-";
    assert a[4..][1..] == a[5..] && b[4..][1..] == b[5..];
    assert a[5..][..2] == a[5..7] && b[5..][..2] == b[5..7];
    assert a[5..][2..] == a[7..] && b[5..][2..] == b[7..];
    assert a[7..][1..] == a[8..] && b[7..][1..] == b[8..];
  }
}
