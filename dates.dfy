/**
 * Calendar dates in the `YYYY-MM-DD` form that `datetime.fromisoformat`
 * accepts for the date filters, and the order in which they compare.
 */
module Dates {
  import opened Wrappers
  import opened Text

  datatype Date = Date(year: nat, month: nat, day: nat)

  predicate IsLeapYear(y: nat)
  {
    y % 4 == 0 && (y % 100 != 0 || y % 400 == 0)
  }

  function DaysInMonth(y: nat, m: nat): nat
    requires 1 <= m <= 12
  {
    if m == 2 then (if IsLeapYear(y) then 29 else 28)
    else if m in {4, 6, 9, 11} then 30
    else 31
  }

  /** A date `datetime` can represent: years 1 to 9999, real months and days. */
  predicate ValidDate(d: Date)
  {
    1 <= d.year <= 9999 && 1 <= d.month <= 12 && 1 <= d.day <= DaysInMonth(d.year, d.month)
  }

  /**
   * `datetime.fromisoformat(s)` restricted to `YYYY-MM-DD`: four, two and two
   * digits separated by dashes, naming a real date; anything else fails.
   */
  function ParseDate(s: string): (r: Option<Date>)
    ensures r.Some? ==> ValidDate(r.value)
  {
    if |s| == 10 && s[4] == '-' && s[7] == '-'
       && AllDigits(s[..4]) && AllDigits(s[5..7]) && AllDigits(s[8..])
    then
      var d := Date(ParseNat(s[..4]), ParseNat(s[5..7]), ParseNat(s[8..]));
      if ValidDate(d) then Some(d) else None
    else None
  }

  /** `d.date().isoformat()`. */
  function FormatDate(d: Date): string
    requires ValidDate(d)
  {
    FixedWidth(d.year, 4) + "-" + FixedWidth(d.month, 2) + "-" + FixedWidth(d.day, 2)
  }

  /** Every representable date is read back from its ISO spelling. */
  lemma ParseFormatDate(d: Date)
    requires ValidDate(d)
    ensures ParseDate(FormatDate(d)) == Some(d)
  {
    var y, m, dd := FixedWidth(d.year, 4), FixedWidth(d.month, 2), FixedWidth(d.day, 2);
    var s := FormatDate(d);
    assert s[..4] == y && s[5..7] == m && s[8..] == dd;
    ParseFixedWidth(d.year, 4);
    ParseFixedWidth(d.month, 2);
    ParseFixedWidth(d.day, 2);
  }

  /** The parser accepts only canonical spellings: what it reads is what it would write. */
  lemma FormatParseDate(s: string)
    requires ParseDate(s).Some?
    ensures FormatDate(ParseDate(s).value) == s
  {
    var y, m, dd := s[..4], s[5..7], s[8..];
    var d := ParseDate(s).value;
    assert d == Date(ParseNat(y), ParseNat(m), ParseNat(dd));
    FixedWidthParse(y);
    FixedWidthParse(m);
    FixedWidthParse(dd);
    assert FixedWidth(d.year, 4) == y;
    assert FixedWidth(d.month, 2) == m;
    assert FixedWidth(d.day, 2) == dd;
    assert s == y + "-" + m + "-" + dd;
  }

  /** `a <= b` on `datetime` values at midnight. */
  predicate NotAfter(a: Date, b: Date)
  {
    a.year < b.year
    || (a.year == b.year && (a.month < b.month || (a.month == b.month && a.day <= b.day)))
  }

  /** The defaults a record without `created_at` reads as for each bound. */
  const EarliestDefault: string := "1970-01-01"
  const LatestDefault: string := "2099-12-31"

  /** A four-digit string reads as its digits weighted by place. */
  lemma ParseFourDigits(s: string)
    requires |s| == 4 && AllDigits(s)
    ensures ParseNat(s) == 1000 * DigitValue(s[0]) + 100 * DigitValue(s[1]) + 10 * DigitValue(s[2]) + DigitValue(s[3])
  {
    var s3, s2, s1 := s[..3], s[..2], s[..1];
    assert s3[..2] == s2 && s2[..1] == s1 && s1[..0] == [];
    assert ParseNat(s1) == DigitValue(s[0]);
    assert ParseNat(s2) == ParseNat(s1) * 10 + DigitValue(s[1]);
    assert ParseNat(s3) == ParseNat(s2) * 10 + DigitValue(s[2]);
    assert ParseNat(s) == ParseNat(s3) * 10 + DigitValue(s[3]);
  }

  /** A two-digit string reads as its digits weighted by place. */
  lemma ParseTwoDigits(s: string)
    requires |s| == 2 && AllDigits(s)
    ensures ParseNat(s) == 10 * DigitValue(s[0]) + DigitValue(s[1])
  {
    var s1 := s[..1];
    assert s1[..0] == [];
    assert ParseNat(s1) == DigitValue(s[0]);
    assert ParseNat(s) == ParseNat(s1) * 10 + DigitValue(s[1]);
  }

  /** The default for a record without `created_at` on the lower bound is a valid date. */
  lemma EarliestDefaultParses()
    ensures ParseDate(EarliestDefault) == Some(Date(1970, 1, 1))
  {
    var e := EarliestDefault;
    ParseFourDigits(e[..4]);
    ParseTwoDigits(e[5..7]);
    ParseTwoDigits(e[8..]);
  }

  /** The default for a record without `created_at` on the upper bound is a valid date. */
  lemma LatestDefaultParses()
    ensures ParseDate(LatestDefault) == Some(Date(2099, 12, 31))
  {
    var l := LatestDefault;
    ParseFourDigits(l[..4]);
    ParseTwoDigits(l[5..7]);
    ParseTwoDigits(l[8..]);
  }
}
