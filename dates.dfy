/**
 * Calendar dates and their `DD-MM-YYYY` text form.
 *
 * The form formats the picked date with `moment(startDate).format('DD-MM-YYYY')`
 * and looks the text up in a fixed list of start dates. Here a date is a
 * (day, month, year) triple and `Format` is the formatter: each part in
 * decimal, zero-filled on the left to 2, 2 and 4 digits, a part that needs
 * more digits printed in full. `Parse` reads the text back, and the round
 * trip makes the formatter injective, so the allow-list is exactly three dates.
 */
module Dates {
  import opened Wrappers
  import Strings

  datatype Date = Date(day: nat, month: nat, year: nat)

  function Pow10(k: nat): (p: nat)
    ensures p >= 1
  {
    if k == 0 then 1 else 10 * Pow10(k - 1)
  }

  /** The number of decimal digits of `n` (1 for zero). */
  function NumDigits(n: nat): (k: nat)
    ensures 1 <= k && n < Pow10(k)
  {
    if n < 10 then 1 else 1 + NumDigits(n / 10)
  }

  predicate IsDigit(c: char) { '0' <= c <= '9' }

  predicate AllDigits(s: string) { forall k :: 0 <= k < |s| ==> IsDigit(s[k]) }

  function DigitChar(d: nat): (c: char)
    requires d < 10
    ensures IsDigit(c) && c as int - '0' as int == d
  {
    ('0' as int + d) as char
  }

  /** The decimal value of a string of digits. */
  function Value(s: string): (v: nat)
    requires AllDigits(s)
  {
    if s == [] then 0 else 10 * Value(s[..|s| - 1]) + (s[|s| - 1] as int - '0' as int)
  }

  /** The last `w` decimal digits of `n`, leading zeros included. */
  function Fixed(n: nat, w: nat): (s: string)
    ensures |s| == w && AllDigits(s)
  {
    if w == 0 then [] else Fixed(n / 10, w - 1) + [DigitChar(n % 10)]
  }

  /** `n` zero-filled on the left to at least `w` digits. */
  function ZeroFill(n: nat, w: nat): (s: string)
    ensures |s| >= w && |s| >= 1 && AllDigits(s)
  {
    Fixed(n, if w < NumDigits(n) then NumDigits(n) else w)
  }

  /** `moment(date).format('DD-MM-YYYY')`. */
  function Format(d: Date): (s: string)
  {
    ZeroFill(d.day, 2) + "-" + ZeroFill(d.month, 2) + "-" + ZeroFill(d.year, 4)
  }

  /** Reads `DD-MM-YYYY` back: three non-empty runs of digits separated by '-'. */
  function Parse(s: string): (r: Option<Date>)
  {
    match Strings.IndexOf(s, '-')
    case None => None
    case Some(i) =>
      var rest := s[i + 1..];
      match Strings.IndexOf(rest, '-')
      case None => None
      case Some(j) =>
        var dd, mm, yy := s[..i], rest[..j], rest[j + 1..];
        if dd != [] && mm != [] && yy != [] && AllDigits(dd) && AllDigits(mm) && AllDigits(yy)
        then Some(Date(Value(dd), Value(mm), Value(yy)))
        else None
  }

  /** `Fixed` reproduces every number that fits in `w` digits. */
  lemma {:induction false} FixedValue(n: nat, w: nat)
    requires n < Pow10(w)
    ensures Value(Fixed(n, w)) == n
  {
    if w > 0 {
      var s := Fixed(n, w);
      assert s[..|s| - 1] == Fixed(n / 10, w - 1);
      FixedValue(n / 10, w - 1);
    }
  }

  lemma ZeroFillValue(n: nat, w: nat)
    ensures Value(ZeroFill(n, w)) == n
  {
    var k := if w < NumDigits(n) then NumDigits(n) else w;
    PowMonotone(NumDigits(n), k);
    FixedValue(n, k);
  }

  lemma {:induction false} PowMonotone(i: nat, j: nat)
    requires i <= j
    ensures Pow10(i) <= Pow10(j)
  {
    if i < j {
      PowMonotone(i, j - 1);
    }
  }

  lemma NoDash(s: string)
    requires AllDigits(s)
    ensures '-' !in s
  {
  }

  /** Parsing the formatted text gives back the date. */
  lemma ParseFormat(d: Date)
    ensures Parse(Format(d)) == Some(d)
  {
    var dd, mm, yy := ZeroFill(d.day, 2), ZeroFill(d.month, 2), ZeroFill(d.year, 4);
    var s := Format(d);
    NoDash(dd);
    NoDash(mm);
    NoDash(yy);
    assert s == dd + ['-'] + (mm + "-" + yy);
    Strings.IndexOfAfter(dd, '-', mm + "-" + yy);
    var rest := s[|dd| + 1..];
    assert rest == mm + ['-'] + yy;
    Strings.IndexOfAfter(mm, '-', yy);
    assert s[..|dd|] == dd;
    assert rest[..|mm|] == mm;
    assert rest[|mm| + 1..] == yy;
    ZeroFillValue(d.day, 2);
    ZeroFillValue(d.month, 2);
    ZeroFillValue(d.year, 4);
  }

  /** Two dates with the same `DD-MM-YYYY` text are the same date. */
  lemma FormatInjective(d1: Date, d2: Date)
    ensures Format(d1) == Format(d2) ==> d1 == d2
  {
    ParseFormat(d1);
    ParseFormat(d2);
  }

  /** The start dates on offer, as the text the formatter produces (src/App.js:13). */
  const AllowedDates: seq<string> := ["20-12-2019", "15-01-2020", "01-03-2020"]

  /** `allowedDates.includes(moment(date).format('DD-MM-YYYY'))`. */
  predicate IsAllowedDate(d: Date)
  {
    Format(d) in AllowedDates
  }

  /** Exactly three calendar dates pass the allow-list. */
  lemma AllowedDatesExactly(d: Date)
    ensures IsAllowedDate(d) <==>
      d == Date(20, 12, 2019) || d == Date(15, 1, 2020) || d == Date(1, 3, 2020)
  {
    FormatExamples();
    FormatInjective(d, Date(20, 12, 2019));
    FormatInjective(d, Date(15, 1, 2020));
    FormatInjective(d, Date(1, 3, 2020));
  }

  lemma FixedTwo(n: nat)
    requires n < 100
    ensures Fixed(n, 2) == [DigitChar(n / 10), DigitChar(n % 10)]
  {
    var t := n / 10;
    assert t < 10 && t % 10 == t;
    assert Fixed(t, 1) == Fixed(t / 10, 0) + [DigitChar(t)];
    assert Fixed(n, 2) == Fixed(t, 1) + [DigitChar(n % 10)];
  }

  lemma FixedFour(n: nat)
    requires n < 10000
    ensures Fixed(n, 4) == Fixed(n / 100, 2) + Fixed(n % 100, 2)
  {
    LastTwoDigits(n);
    FixedTwo(n % 100);
    assert Fixed(n, 4) == Fixed(n / 10, 3) + [DigitChar(n % 10)];
    assert Fixed(n / 10, 3) == Fixed(n / 100, 2) + [DigitChar((n / 10) % 10)];
  }

  lemma LastTwoDigits(n: nat)
    ensures (n / 10) / 10 == n / 100
    ensures (n % 100) / 10 == (n / 10) % 10 && (n % 100) % 10 == n % 10
  {
  }

  lemma DayMonthText(n: nat)
    requires n < 100
    ensures ZeroFill(n, 2) == Fixed(n, 2)
  {
    if n >= 10 {
      assert NumDigits(n) == 2;
    }
  }

  lemma YearText(n: nat)
    requires 1000 <= n < 10000
    ensures ZeroFill(n, 4) == Fixed(n / 100, 2) + Fixed(n % 100, 2)
  {
    assert NumDigits(n) == 1 + NumDigits(n / 10);
    assert NumDigits(n / 10) == 1 + NumDigits(n / 100);
    assert NumDigits(n / 100) == 1 + NumDigits(n / 1000);
    FixedFour(n);
  }

  lemma DayMonthLiteral(n: nat)
    requires n < 100
    ensures ZeroFill(n, 2) == [DigitChar(n / 10), DigitChar(n % 10)]
  {
    DayMonthText(n);
    FixedTwo(n);
  }

  lemma YearLiteral(n: nat)
    requires 1000 <= n < 10000
    ensures ZeroFill(n, 4) ==
      [DigitChar(n / 1000), DigitChar((n / 100) % 10), DigitChar((n % 100) / 10), DigitChar(n % 10)]
  {
    YearText(n);
    FixedTwo(n / 100);
    FixedTwo(n % 100);
  }

  /** The three allowed start dates, and one that is not allowed, in formatted form. */
  lemma FormatExamples()
    ensures Format(Date(20, 12, 2019)) == "20-12-2019"
    ensures Format(Date(15, 1, 2020)) == "15-01-2020"
    ensures Format(Date(1, 3, 2020)) == "01-03-2020"
    ensures Format(Date(1, 1, 2020)) == "01-01-2020"
  {
    FormatDec20();
    FormatJan15();
    FormatMar1();
    FormatJan1();
  }

  // The dates of `FormatExamples`, one per lemma. These are evaluation steps,
  // not properties, split so that the solver stays within its resource budget.

  lemma FormatDec20() ensures Format(Date(20, 12, 2019)) == "20-12-2019"
  {
    DayMonthLiteral(20);
    DayMonthLiteral(12);
    YearLiteral(2019);
  }

  lemma FormatJan15() ensures Format(Date(15, 1, 2020)) == "15-01-2020"
  {
    DayMonthLiteral(15);
    DayMonthLiteral(1);
    YearLiteral(2020);
  }

  lemma FormatMar1() ensures Format(Date(1, 3, 2020)) == "01-03-2020"
  {
    DayMonthLiteral(1);
    DayMonthLiteral(3);
    YearLiteral(2020);
  }

  lemma FormatJan1() ensures Format(Date(1, 1, 2020)) == "01-01-2020"
  {
    DayMonthLiteral(1);
    YearLiteral(2020);
  }
}
