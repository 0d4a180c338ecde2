/**
 * `datetime.strptime(value, "%B %Y")` followed by `.astimezone(UTC).date().isoformat()`, for
 * the English locale on a host whose local time is UTC.
 *
 * `%B` matches a full English month name regardless of case, the space in the format
 * matches one or more whitespace characters, `%Y` matches exactly four digits, and nothing
 * may follow. Year 0 is rejected by `datetime`, and so is the conversion of 0001-01-01 to UTC.
 * The result is the first day of that month.
 */
module Dates {
  import opened Wrappers
  import opened Text

  const MonthNames: seq<string> := [
    "january", "february", "march", "april", "may", "june",
    "july", "august", "september", "october", "november", "december"
  ]

  /** `s` starts with the name of month `m` (1-based), in any letter case. */
  predicate NamesMonth(s: string, m: nat)
    requires 1 <= m <= 12
  {
    |MonthNames[m - 1]| <= |s| && Lower(s[..|MonthNames[m - 1]|]) == MonthNames[m - 1]
  }

  /** The first month, counting from `m`, whose name begins `s`. */
  function FindMonth(s: string, m: nat): (r: Option<nat>)
    requires 1 <= m <= 13
    ensures r.Some? ==> m <= r.value <= 12 && NamesMonth(s, r.value)
    ensures r.None? ==> forall k :: m <= k <= 12 ==> !NamesMonth(s, k)
    decreases 13 - m
  {
    if m == 13 then None
    else if NamesMonth(s, m) then Some(m)
    else FindMonth(s, m + 1)
  }

  predicate AllDigits(s: string) { forall i :: 0 <= i < |s| ==> IsDigit(s[i]) }

  /** Whitespace (at least one character) then exactly four digits: the year, if it is not 0. */
  function ParseYear(s: string): (r: Option<nat>)
    ensures r.Some? <==> |s| >= 5 && AllSpace(s[..|s| - 4]) && AllDigits(s[|s| - 4..])
                         && DecimalValue(s[|s| - 4..]) >= 1
    ensures r.Some? ==> r.value == DecimalValue(s[|s| - 4..]) && 1 <= r.value <= 9999
  {
    if |s| >= 5 && AllSpace(s[..|s| - 4]) && AllDigits(s[|s| - 4..]) then
      var y := DecimalValue(s[|s| - 4..]);
      FourDigitsBound(s[|s| - 4..]);
      if y >= 1 then Some(y) else None
    else None
  }

  /** `strptime(s, "%B %Y")`, as (month, year), or None where it raises `ValueError`. */
  function ParseMonthYear(s: string): (r: Option<(nat, nat)>)
    ensures r.Some? ==> 1 <= r.value.0 <= 12 && 1 <= r.value.1 <= 9999
    ensures r.Some? ==> NamesMonth(s, r.value.0)
                        && ParseYear(s[|MonthNames[r.value.0 - 1]|..]) == Some(r.value.1)
  {
    match FindMonth(s, 1)
    case None => None
    case Some(m) =>
      match ParseYear(s[|MonthNames[m - 1]|..])
      case None => None
      case Some(y) => Some((m, y))
  }

  /**
   * `strptime(s, "%B %Y").astimezone(UTC)`, as (month, year), or None where either raises
   * `ValueError`. Converting the naive result from local time also looks at the moment one
   * day earlier; for 0001-01-01 that moment is in year 0, which `datetime` rejects. Every other
   * parse converts, and on a UTC host its date is unchanged.
   */
  function ParseUtcDate(s: string): (r: Option<(nat, nat)>)
    ensures r.Some? <==> ParseMonthYear(s).Some? && ParseMonthYear(s) != Some((1, 1))
    ensures r.Some? ==> r == ParseMonthYear(s)
  {
    match ParseMonthYear(s)
    case Some((1, 1)) => None
    case other => other
  }

  /** "January 0001" parses, but then the conversion to UTC fails. */
  lemma YearOneRejected()
    ensures ParseMonthYear("January 0001") == Some((1, 1))
    ensures ParseUtcDate("January 0001") == None
  {
    var name := "January";
    LowerJanuary();
    assert DecimalString(1) == "1";
    assert ZeroPad(1, 4) == "0001";
    ParseMonthYearRoundTrip(name, 1, 1);
    assert name + " " + ZeroPad(1, 4) == "January 0001";
  }

  /** `"%0{width}d" % n`. */
  function ZeroPad(n: nat, width: nat): (r: string)
    ensures forall i :: 0 <= i < |r| ==> IsDigit(r[i])
    ensures |r| == if |DecimalString(n)| < width then width else |DecimalString(n)|
  {
    var ds := DecimalString(n);
    if |ds| < width then seq(width - |ds|, _ => '0') + ds else ds
  }

  /** `date(year, month, 1).isoformat()`. */
  function IsoDate(year: nat, month: nat): (r: string)
    requires 1 <= year <= 9999 && 1 <= month <= 12
    ensures |r| == 10
  {
    DecimalStringLength(year);
    DecimalStringLength(month);
    ZeroPad(year, 4) + "-" + ZeroPad(month, 2) + "-01"
  }

  lemma {:induction false} FourDigitsBound(ds: string)
    requires |ds| == 4 && AllDigits(ds)
    ensures DecimalValue(ds) <= 9999
  {
    var c := ds[..3];
    var b := c[..2];
    var a := b[..1];
    assert a[..0] == [];
    assert DecimalValue(a) <= 9;
    assert DecimalValue(b) <= 99;
    assert DecimalValue(c) <= 999;
  }

  lemma {:induction false} DecimalStringLength(n: nat)
    ensures n < 10 ==> |DecimalString(n)| == 1
    ensures n < 100 ==> |DecimalString(n)| <= 2
    ensures n < 1000 ==> |DecimalString(n)| <= 3
    ensures n < 10000 ==> |DecimalString(n)| <= 4
  {
    if n >= 10 {
      DecimalStringLength(n / 10);
    }
  }

  lemma {:induction false} ZeroPadValue(n: nat, width: nat)
    ensures DecimalValue(ZeroPad(n, width)) == n
  {
    var ds := DecimalString(n);
    DecimalRoundTrip(n);
    if |ds| < width {
      DecimalLeadingZeros(width - |ds|, ds);
    }
  }

  /** `YYYY-MM-01` with a year from 1 and a month from 1 to 12. */
  predicate IsFirstOfMonth(d: string)
  {
    && |d| == 10
    && AllDigits(d[..4]) && DecimalValue(d[..4]) >= 1
    && d[4] == '-'
    && AllDigits(d[5..7]) && 1 <= DecimalValue(d[5..7]) <= 12
    && d[7..] == "-01"
  }

  /** The ISO date reads back as the year, the month and day 1. */
  lemma IsoDateFields(year: nat, month: nat)
    requires 1 <= year <= 9999 && 1 <= month <= 12
    ensures var d := IsoDate(year, month);
      && IsFirstOfMonth(d) && DecimalValue(d[..4]) == year && DecimalValue(d[5..7]) == month
  {
    var d := IsoDate(year, month);
    DecimalStringLength(year);
    DecimalStringLength(month);
    assert d[..4] == ZeroPad(year, 4);
    assert d[5..7] == ZeroPad(month, 2);
    ZeroPadValue(year, 4);
    ZeroPadValue(month, 2);
  }

  /** The month whose name begins with these three letters. */
  function MonthOfAbbreviation(a: string): int
  {
    if a == "jan" then 1 else if a == "feb" then 2 else if a == "mar" then 3
    else if a == "apr" then 4 else if a == "may" then 5 else if a == "jun" then 6
    else if a == "jul" then 7 else if a == "aug" then 8 else if a == "sep" then 9
    else if a == "oct" then 10 else if a == "nov" then 11 else if a == "dec" then 12
    else 0
  }

  lemma MonthAbbreviations(m: nat)
    requires 1 <= m <= 12
    ensures |MonthNames[m - 1]| >= 3 && MonthOfAbbreviation(MonthNames[m - 1][..3]) == m
  {
    if m == 1 { assert MonthNames[0][..3] == "jan"; }
    else if m == 2 { assert MonthNames[1][..3] == "feb"; }
    else if m == 3 { assert MonthNames[2][..3] == "mar"; }
    else if m == 4 { assert MonthNames[3][..3] == "apr"; }
    else if m == 5 { assert MonthNames[4][..3] == "may"; }
    else if m == 6 { assert MonthNames[5][..3] == "jun"; }
    else if m == 7 { assert MonthNames[6][..3] == "jul"; }
    else if m == 8 { assert MonthNames[7][..3] == "aug"; }
    else if m == 9 { assert MonthNames[8][..3] == "sep"; }
    else if m == 10 { assert MonthNames[9][..3] == "oct"; }
    else if m == 11 { assert MonthNames[10][..3] == "nov"; }
    else { assert MonthNames[11][..3] == "dec"; }
  }

  /** The first three letters of a string that names a month decide which month it is. */
  lemma AbbreviationOfNamed(s: string, m: nat)
    requires 1 <= m <= 12
    ensures NamesMonth(s, m) ==> |s| >= 3 && MonthOfAbbreviation(Lower(s[..3])) == m
  {
    MonthAbbreviations(m);
    var a := MonthNames[m - 1];
    if NamesMonth(s, m) {
      assert Lower(s[..|a|])[..3] == Lower(s[..3]);
    }
  }

  /** So at most one month name begins a string. */
  lemma MonthNamesPrefixFree(s: string, m: nat, k: nat)
    requires 1 <= m <= 12 && 1 <= k <= 12
    requires NamesMonth(s, m) && NamesMonth(s, k)
    ensures m == k
  {
    AbbreviationOfNamed(s, m);
    AbbreviationOfNamed(s, k);
  }

  /** Round trip: a month name in any case, a space and a four-digit year parse back to that month and year. */
  lemma ParseMonthYearRoundTrip(name: string, m: nat, y: nat)
    requires 1 <= m <= 12 && 1 <= y <= 9999
    requires Lower(name) == MonthNames[m - 1]
    ensures ParseMonthYear(name + " " + ZeroPad(y, 4)) == Some((m, y))
  {
    var s := name + " " + ZeroPad(y, 4);
    MonthFound(name, " " + ZeroPad(y, 4), m);
    assert s == name + (" " + ZeroPad(y, 4));
    assert s[|name|..] == " " + ZeroPad(y, 4);
    YearFound(y);
  }

  /** A month name at the front is the month `FindMonth` finds. */
  lemma MonthFound(name: string, rest: string, m: nat)
    requires 1 <= m <= 12 && Lower(name) == MonthNames[m - 1]
    ensures FindMonth(name + rest, 1) == Some(m)
  {
    var s := name + rest;
    assert s[..|name|] == name;
    assert NamesMonth(s, m);
    var found := FindMonth(s, 1);
    assert found.Some?;
    MonthNamesPrefixFree(s, m, found.value);
  }

  /** A space and a four-digit year from 1 read back as that year. */
  lemma YearFound(y: nat)
    requires 1 <= y <= 9999
    ensures ParseYear(" " + ZeroPad(y, 4)) == Some(y)
  {
    var digits := ZeroPad(y, 4);
    DecimalStringLength(y);
    var rest := " " + digits;
    assert rest[..|rest| - 4] == " ";
    assert rest[|rest| - 4..] == digits;
    ZeroPadValue(y, 4);
  }

  lemma YearExample()
    ensures ZeroPad(2020, 4) == "2020"
  {
    assert DecimalString(2) == "2";
    assert DecimalString(20) == "20";
    assert DecimalString(202) == "202";
    assert DecimalString(2020) == "2020";
  }

  /** "January 2020" is January of 2020, written 2020-01-01. */
  lemma ParseExample()
    ensures ParseMonthYear("January 2020") == Some((1, 2020))
    ensures IsoDate(2020, 1) == "2020-01-01"
  {
    ParseJanuary();
    IsoExample();
  }

  lemma ParseJanuary()
    ensures ParseMonthYear("January 2020") == Some((1, 2020))
  {
    var name := "January";
    LowerJanuary();
    YearExample();
    ParseMonthYearRoundTrip(name, 1, 2020);
    assert name + " " + ZeroPad(2020, 4) == "January 2020";
  }

  lemma LowerJanuary()
    ensures Lower("January") == "january"
  {
    var s := "January";
    assert forall i :: 0 <= i < |s| ==> Lower(s)[i] == "january"[i];
  }

  lemma IsoExample()
    ensures IsoDate(2020, 1) == "2020-01-01"
  {
    YearExample();
    assert DecimalString(1) == "1";
    assert ZeroPad(1, 2) == "01";
  }

  lemma ParseRejects()
    ensures ParseMonthYear("garbage") == None
  {
    var s := "garbage";
    assert s[..3] == "gar";
    assert Lower("gar") == "gar";
    NoMonthNamed(s);
    UnnamedRejected(s);
  }

  /** A string whose first three letters abbreviate no month names no month ... */
  lemma NoMonthNamed(s: string)
    requires |s| >= 3 && MonthOfAbbreviation(Lower(s[..3])) == 0
    ensures forall m :: 1 <= m <= 12 ==> !NamesMonth(s, m)
  {
    forall m | 1 <= m <= 12
      ensures !NamesMonth(s, m)
    {
      AbbreviationOfNamed(s, m);
    }
  }

  /** ... and a string that names no month does not parse. */
  lemma UnnamedRejected(s: string)
    requires forall m :: 1 <= m <= 12 ==> !NamesMonth(s, m)
    ensures FindMonth(s, 1) == None && ParseMonthYear(s) == None
  {
  }
}
