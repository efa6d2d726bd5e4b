/**
 * The timestamp endpoint of boilerplate-timestamp/index.js, `GET /api/:date?`.
 *
 * A missing or empty parameter reports the current time; a parameter of decimal digits only is a
 * number of milliseconds read with parseInt; anything else goes to the Date string parser. A time
 * value that is NaN gives the "Invalid Date" error, any other gives `unix` and `utc` of that value.
 *
 * The clock (`new Date()`), the Date string parser and `toUTCString` are not part of this model:
 * they are the parameters `now`, `parseDate` (None where it yields NaN) and `utcString`.
 * The Date constructor's range check is modelled: ECMA-262's TimeClip turns a time value whose
 * magnitude exceeds 8.64e15 ms into NaN.
 */
module Timestamp {
  import opened Wrappers
  import opened JsNumbers

  type DateStringParser = string -> Option<int>
  type UtcFormatter = int -> string

  const MAX_TIME_VALUE: int := 8_640_000_000_000_000
  const INVALID_DATE := "Invalid Date"

  /** The JSON body of a response. */
  datatype TimeResponse = TimeJson(unix: int, utc: string) | DateError(error: string)

  /** Where the handler takes its time value from. */
  datatype DateSource = CurrentTime | Milliseconds(digits: string) | DateString(text: string)

  /**
   * The three branches of the handler: `!dateParam`, then `/^\d+$/.test(dateParam)`, then the rest.
   * The string parser gets exactly the parameters that hold some character other than a decimal digit.
   */
  function Classify(dateParam: Option<string>): (r: DateSource)
    ensures r == CurrentTime <==> dateParam.None? || dateParam.value == ""
    ensures r.Milliseconds? ==> dateParam == Some(r.digits) && |r.digits| > 0 &&
                                forall i :: 0 <= i < |r.digits| ==> IsDecimalDigit(r.digits[i])
    ensures r.DateString? ==> dateParam == Some(r.text) &&
                              exists i :: 0 <= i < |r.text| && !IsDecimalDigit(r.text[i])
  {
    match dateParam
    case None => CurrentTime
    case Some(s) =>
      if s == "" then CurrentTime
      else if IsDigitString(s) then Milliseconds(s)
      else DateString(s)
  }

  /** TimeClip: a time value beyond the Date range becomes NaN; a value within it is kept as it is. */
  function TimeClip(tv: Option<int>): (r: Option<int>)
    ensures r.Some? <==> tv.Some? && -MAX_TIME_VALUE <= tv.value <= MAX_TIME_VALUE
    ensures r.Some? ==> r == tv
  {
    match tv
    case None => None
    case Some(t) => if -MAX_TIME_VALUE <= t <= MAX_TIME_VALUE then Some(t) else None
  }

  /** The response for the time value of a `Date`: the error on NaN, else both fields from that one value. */
  function Report(date: Option<int>, utcString: UtcFormatter): (r: TimeResponse)
    ensures r.DateError? <==> date.None?
    ensures r.DateError? ==> r.error == INVALID_DATE
    ensures r.TimeJson? ==> date == Some(r.unix) && r.utc == utcString(r.unix)
  {
    match date
    case None => DateError(INVALID_DATE)
    case Some(t) => TimeJson(t, utcString(t))
  }

  /**
   * The handler. A digit string is a count of milliseconds equal to its decimal value, valid up to
   * the Date range and "Invalid Date" beyond it; it never reaches the string parser. The
   * current-time branch reports `now`. Both fields of a success come from one time value.
   */
  function Respond(dateParam: Option<string>, now: int, parseDate: DateStringParser, utcString: UtcFormatter)
    : (r: TimeResponse)
    ensures r.TimeJson? ==> r.utc == utcString(r.unix)
    ensures r.DateError? ==> r.error == INVALID_DATE && Classify(dateParam) != CurrentTime
    ensures match Classify(dateParam)
            case CurrentTime => r == TimeJson(now, utcString(now))
            case Milliseconds(digits) =>
              if DecimalValue(digits) <= MAX_TIME_VALUE then r == TimeJson(DecimalValue(digits), utcString(DecimalValue(digits)))
              else r == DateError(INVALID_DATE)
            case DateString(text) => r == Report(TimeClip(parseDate(text)), utcString)
  {
    match Classify(dateParam)
    case CurrentTime => TimeJson(now, utcString(now))
    case Milliseconds(digits) =>
      ParseIntDigitString(digits);
      Report(TimeClip(ParseInt(digits)), utcString)
    case DateString(text) => Report(TimeClip(parseDate(text)), utcString)
  }

  /** A parameter with a character that is not a decimal digit goes to the Date string parser. */
  lemma NonDigitGoesToParser(s: string, i: int)
    requires 0 <= i < |s| && !IsDecimalDigit(s[i])
    ensures Classify(Some(s)) == DateString(s)
  {
  }

  /** Every digit string of at most 15 digits is a valid date: its value is below 10^15 ms. */
  lemma ShortDigitStringIsValid(s: string, now: int, parseDate: DateStringParser, utcString: UtcFormatter)
    requires IsDigitString(s) && |s| <= 15
    ensures Respond(Some(s), now, parseDate, utcString) == TimeJson(DecimalValue(s), utcString(DecimalValue(s)))
  {
    NumeralValueBound(s, 10);
    PowerMonotone(10, |s|, 15);
    assert Power(10, 15) == 1_000_000_000_000_000 by { PowerOfTen15(); }
  }

  lemma {:induction false} PowerMonotone(b: nat, e1: nat, e2: nat)
    requires b >= 1 && e1 <= e2
    ensures Power(b, e1) <= Power(b, e2)
  {
    if e1 < e2 {
      PowerMonotone(b, e1, e2 - 1);
      MultiplyMonotone(1, b, Power(b, e2 - 1));
    }
  }

  lemma PowerOfTen15()
    ensures Power(10, 15) == 1_000_000_000_000_000
  {
    assert Power(10, 5) == 100_000;
    assert Power(10, 10) == 10_000_000_000;
  }

  /** A bare year is no year: "2015" is 2015 ms after the epoch, whatever the string parser would say. */
  lemma YearIsMilliseconds(now: int, parseDate: DateStringParser, utcString: UtcFormatter)
    ensures Respond(Some("2015"), now, parseDate, utcString) == TimeJson(2015, utcString(2015))
  {
    assert DecimalValue("2015") == 2015 by {
      assert NumeralValue("2", 10) == 2 by { assert "2"[..0] == []; }
      assert NumeralValue("20", 10) == 20 by { assert "20"[..1] == "2"; }
      assert NumeralValue("201", 10) == 201 by { assert "201"[..2] == "20"; }
      assert NumeralValue("2015", 10) == 2015 by { assert "2015"[..3] == "201"; }
    }
  }

  /** The documented request: /api/1451001600000 reports unix 1451001600000 and the UTC text of that instant. */
  lemma DocumentedTimestamp(now: int, parseDate: DateStringParser, utcString: UtcFormatter)
    ensures Respond(Some("1451001600000"), now, parseDate, utcString) == TimeJson(1451001600000, utcString(1451001600000))
  {
    DocumentedNumeral();
    ShortDigitStringIsValid("1451001600000", now, parseDate, utcString);
  }

  lemma DocumentedNumeral()
    ensures DecimalValue("1451001600000") == 1451001600000
  {
    assert NumeralValue("1", 10) == 1 by { assert "1"[..0] == []; }
    assert NumeralValue("14", 10) == 14 by { assert "14"[..1] == "1"; }
    assert NumeralValue("145", 10) == 145 by { assert "145"[..2] == "14"; }
    assert NumeralValue("1451", 10) == 1451 by { assert "1451"[..3] == "145"; }
    assert NumeralValue("14510", 10) == 14510 by { assert "14510"[..4] == "1451"; }
    assert NumeralValue("145100", 10) == 145100 by { assert "145100"[..5] == "14510"; }
    assert NumeralValue("1451001", 10) == 1451001 by { assert "1451001"[..6] == "145100"; }
    assert NumeralValue("14510016", 10) == 14510016 by { assert "14510016"[..7] == "1451001"; }
    assert NumeralValue("145100160", 10) == 145100160 by { assert "145100160"[..8] == "14510016"; }
    assert NumeralValue("1451001600", 10) == 1451001600 by { assert "1451001600"[..9] == "145100160"; }
    assert NumeralValue("14510016000", 10) == 14510016000 by { assert "14510016000"[..10] == "1451001600"; }
    assert NumeralValue("145100160000", 10) == 145100160000 by { assert "145100160000"[..11] == "14510016000"; }
    assert NumeralValue("1451001600000", 10) == 1451001600000 by { assert "1451001600000"[..12] == "145100160000"; }
  }
}
