/**
 * The date components the partitioner computes once, when its module is
 * loaded (the module-level `year`, `month`, `day` and `str_date` of
 * src/app.py).
 * The date itself is a parameter here instead of the wall clock.
 */
module DateParts {
  import opened Wrappers
  import opened PyStr

  /** A calendar date as `datetime` hands it out. */
  datatype Date = Date(year: nat, month: nat, day: nat)

  /** The ranges `datetime` guarantees for its fields. */
  predicate ValidDate(d: Date)
  {
    1 <= d.year <= 9999 && 1 <= d.month <= 12 && 1 <= d.day <= 31
  }

  /** `str(date.year)`. */
  function YearText(d: Date): string
  {
    Decimal(d.year)
  }

  /** `str(date.month).rjust(2, "0")`. */
  function MonthText(d: Date): string
  {
    RJust(Decimal(d.month), 2, '0')
  }

  /** `str(date.day).rjust(2, "0")`. */
  function DayText(d: Date): string
  {
    RJust(Decimal(d.day), 2, '0')
  }

  /** `f"{year}-{month}-{day}"`. */
  function StrDate(d: Date): string
  {
    YearText(d) + "-" + MonthText(d) + "-" + DayText(d)
  }

  /** The four module-level strings, computed from the date when the module loads. */
  datatype DateTexts = DateTexts(year: string, month: string, day: string, strDate: string)

  /** `year`, `month`, `day` and `str_date` for the date `d`. */
  function TextsOf(d: Date): DateTexts
  {
    DateTexts(YearText(d), MonthText(d), DayText(d), StrDate(d))
  }

  /**
   * A number below 100, padded to width 2 with "0", is exactly two digits,
   * starts with "0" exactly when the number is below 10, and reads back as
   * the number.
   */
  lemma PaddedTwoDigits(n: nat)
    requires n < 100
    ensures var r := RJust(Decimal(n), 2, '0');
      |r| == 2 && AllDigits(r) && (r[0] == '0' <==> n < 10) && ParseDecimal(r) == n
  {
    var t := Decimal(n);
    var r := RJust(t, 2, '0');
    DecimalRoundTrip(n);
    if n < 10 {
      assert r == ['0'] + t;
      assert r[..1] == ['0'];
    } else {
      assert r == t;
    }
  }

  /** Month and day are two characters each; a value below 10 gets a leading "0". */
  lemma MonthDayWidth(d: Date)
    requires ValidDate(d)
    ensures |MonthText(d)| == 2 && (MonthText(d)[0] == '0' <==> d.month < 10)
    ensures |DayText(d)| == 2 && (DayText(d)[0] == '0' <==> d.day < 10)
  {
    PaddedTwoDigits(d.month);
    PaddedTwoDigits(d.day);
  }

  /**
   * Reads a `year-mm-dd` text back into a date: the last two fields are
   * exactly two digits, the year is everything before them.
   */
  function ParseDate(s: string): Option<Date>
  {
    if |s| >= 7 && s[|s| - 6] == '-' && s[|s| - 3] == '-'
       && AllDigits(s[..|s| - 6]) && AllDigits(s[|s| - 5..|s| - 3]) && AllDigits(s[|s| - 2..])
    then Some(Date(ParseDecimal(s[..|s| - 6]), ParseDecimal(s[|s| - 5..|s| - 3]), ParseDecimal(s[|s| - 2..])))
    else None
  }

  /** Where the fields of a `year-mm-dd` text sit, given two-character month and day. */
  lemma ParseDateLayout(y: string, m: string, dd: string)
    requires |y| >= 1 && |m| == 2 && |dd| == 2
    requires AllDigits(y) && AllDigits(m) && AllDigits(dd)
    ensures ParseDate(y + "-" + m + "-" + dd) == Some(Date(ParseDecimal(y), ParseDecimal(m), ParseDecimal(dd)))
  {
    var s := y + "-" + m + "-" + dd;
    assert |s| == |y| + 6;
    assert s[|s| - 6] == '-' && s[|s| - 3] == '-';
    assert s[..|s| - 6] == y;
    assert s[|s| - 5..|s| - 3] == m;
    assert s[|s| - 2..] == dd;
  }

  /** `str_date` determines the date it was made from. */
  lemma StrDateRoundTrip(d: Date)
    requires ValidDate(d)
    ensures ParseDate(StrDate(d)) == Some(d)
  {
    var y, m, dd := YearText(d), MonthText(d), DayText(d);
    PaddedTwoDigits(d.month);
    PaddedTwoDigits(d.day);
    DecimalRoundTrip(d.year);
    ParseDateLayout(y, m, dd);
  }

  /** Two valid dates with the same `str_date` are the same date. */
  lemma StrDateInjective(d1: Date, d2: Date)
    requires ValidDate(d1) && ValidDate(d2) && StrDate(d1) == StrDate(d2)
    ensures d1 == d2
  {
    StrDateRoundTrip(d1);
    StrDateRoundTrip(d2);
  }

  /** 5 March 2024 is written `2024-03-05`. */
  lemma StrDateExample()
    ensures YearText(Date(2024, 3, 5)) == "2024"
    ensures MonthText(Date(2024, 3, 5)) == "03" && DayText(Date(2024, 3, 5)) == "05"
    ensures StrDate(Date(2024, 3, 5)) == "2024-03-05"
    ensures TextsOf(Date(2024, 3, 5)) == DateTexts("2024", "03", "05", "2024-03-05")
  {
    assert Decimal(2024) == "2024" by {
      assert Decimal(202) == "202" by {
        assert Decimal(20) == "20";
      }
    }
    assert MonthText(Date(2024, 3, 5)) == "03";
    assert DayText(Date(2024, 3, 5)) == "05";
  }
}
