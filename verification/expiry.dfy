/**
 * `compute_expiry`: validates a duration unit and amount and adds the
 * duration to a wall-clock date-time with `relativedelta` semantics.
 */
module Expiry {
  import opened Wrappers
  import opened Calendar

  datatype Unit = Days | Weeks | Months | Years

  /** Why `compute_expiry` raises. */
  datatype ExpiryError =
    | InvalidUnit        // ValueError: unit must be one of [...]
    | NonPositiveAmount  // ValueError: amount must be a positive integer
    | OutOfRange         // the result would lie after year 9999 (ValueError / OverflowError)

  function UnitName(u: Unit): string {
    match u
    case Days => "days"
    case Weeks => "weeks"
    case Months => "months"
    case Years => "years"
  }

  const KelvinSign: char := '\U{212A}'

  /**
   * Lower-casing of one character: ASCII capitals, and the Kelvin sign, whose
   * lower-case form is the ASCII letter `k`. Every other character is kept.
   * Of the characters whose lower-case form holds an ASCII letter, only U+0130
   * (capital I with dot above) is not mapped: it lower-cases to `i` followed by
   * U+0307, and that combining dot, like the kept U+0130, occurs in no unit name.
   */
  function LowerChar(c: char): (r: char)
    ensures 'A' <= c <= 'Z' ==> r as int == c as int + 32
    ensures c == KelvinSign ==> r == 'k'
    ensures !('A' <= c <= 'Z') && c != KelvinSign ==> r == c
    ensures !('A' <= r <= 'Z') && r != KelvinSign
  {
    if 'A' <= c <= 'Z' then (c as int + 32) as char
    else if c == KelvinSign then 'k'
    else c
  }

  /** `str.lower` on the characters that matter for unit names. */
  function Lower(s: string): (r: string)
    ensures |r| == |s|
    ensures forall i :: 0 <= i < |r| ==> !('A' <= r[i] <= 'Z') && r[i] != KelvinSign
  {
    seq(|s|, i requires 0 <= i < |s| => LowerChar(s[i]))
  }

  /** Lower-casing twice is lower-casing once. */
  lemma LowerIdempotent(s: string)
    ensures Lower(Lower(s)) == Lower(s)
  {
    var t := Lower(s);
    forall i | 0 <= i < |t|
      ensures Lower(t)[i] == t[i]
    {
      assert !('A' <= t[i] <= 'Z') && t[i] != KelvinSign;
    }
  }

  /**
   * Two characters that are the same letter up to case, stated without
   * `LowerChar`: equal, an ASCII capital and its small letter, or the Kelvin
   * sign and either `K` or `k`.
   */
  predicate SameUpToCase(c: char, d: char) {
    || c == d
    || ('A' <= c <= 'Z' && d as int == c as int + 32)
    || ('A' <= d <= 'Z' && c as int == d as int + 32)
    || (c == KelvinSign && (d == 'K' || d == 'k'))
    || (d == KelvinSign && (c == 'K' || c == 'k'))
  }

  lemma LowerCharSameUpToCase(c: char, d: char)
    requires SameUpToCase(c, d)
    ensures LowerChar(c) == LowerChar(d)
  {
  }

  /** The unit named by `s` after lower-casing, if it is one of the four. */
  function ParseUnit(s: string): (r: Option<Unit>)
    ensures r.Some? <==> Lower(s) in {"days", "weeks", "months", "years"}
    ensures r.Some? ==> UnitName(r.value) == Lower(s)
  {
    var t := Lower(s);
    if t == "days" then Some(Days)
    else if t == "weeks" then Some(Weeks)
    else if t == "months" then Some(Months)
    else if t == "years" then Some(Years)
    else None
  }

  /** The date-time `amount` units after `now`, before the range check. */
  function Shift(now: DateTime, u: Unit, amount: nat): (r: DateTime)
    requires ValidDate(now.date)
    ensures ValidDate(r.date) && r.time == now.time
    ensures u == Days ==> Ordinal(r.date) == Ordinal(now.date) + amount
    ensures u == Weeks ==> Ordinal(r.date) == Ordinal(now.date) + 7 * amount
    ensures u == Months ==> MonthIndex(r.date) == MonthIndex(now.date) + amount
    ensures u == Years ==> r.date.year == now.date.year + amount && r.date.month == now.date.month
  {
    match u
    case Days => DateTime(AddDays(now.date, amount), now.time)
    case Weeks => DateTime(AddDays(now.date, 7 * amount), now.time)
    case Months => DateTime(AddMonths(now.date, amount), now.time)
    case Years => DateTime(AddYears(now.date, amount), now.time)
  }

  /**
   * `compute_expiry(now, unit, amount)`. The unit is checked before the
   * amount; a result beyond the last `datetime` (year 9999) is an error.
   */
  function ComputeExpiry(now: DateTime, unit: string, amount: int): (r: Result<DateTime, ExpiryError>)
    requires InPythonRange(now)
    ensures r == Err(InvalidUnit) <==> ParseUnit(unit).None?
    ensures r == Err(NonPositiveAmount) <==> ParseUnit(unit).Some? && amount <= 0
    ensures r.Ok? ==> InPythonRange(r.value) && r.value.time == now.time
    ensures r.Ok? ==> ParseUnit(unit).Some? && amount > 0
  {
    match ParseUnit(unit)
    case None => Err(InvalidUnit)
    case Some(u) =>
      if amount <= 0 then Err(NonPositiveAmount)
      else
        var t := Shift(now, u, amount);
        if t.date.year <= MaxYear then Ok(t) else Err(OutOfRange)
  }

  // ---------------------------------------------------------------------------
  // Properties of compute_expiry.
  // ---------------------------------------------------------------------------

  /** The unit is matched case-insensitively: lower-casing it first changes nothing. */
  lemma ParseUnitIgnoresCase(s: string)
    ensures ParseUnit(Lower(s)) == ParseUnit(s)
  {
    LowerIdempotent(s);
  }

  /** Two spellings that differ only in the case of their letters name the same unit (or none). */
  lemma ParseUnitCaseBlind(s: string, t: string)
    requires |s| == |t|
    requires forall i :: 0 <= i < |s| ==> SameUpToCase(s[i], t[i])
    ensures ParseUnit(s) == ParseUnit(t)
  {
    forall i | 0 <= i < |s|
      ensures Lower(s)[i] == Lower(t)[i]
    {
      LowerCharSameUpToCase(s[i], t[i]);
    }
    assert Lower(s) == Lower(t);
  }

  lemma ParseUnitMixedCase()
    ensures ParseUnit("Months") == Some(Months)
    ensures ParseUnit("DAYS") == Some(Days)
    ensures ParseUnit("wEeKs") == Some(Weeks)
  {
    assert Lower("Months") == "months";
    assert Lower("DAYS") == "days";
    assert Lower("wEeKs") == "weeks";
  }

  lemma ParseUnitKelvinSign()
    ensures ParseUnit("WEE" + [KelvinSign] + "S") == Some(Weeks)
  {
    assert Lower("WEE" + [KelvinSign] + "S") == "weeks";
  }

  lemma ParseUnitRejects()
    ensures ParseUnit("year") == None
    ensures ParseUnit("hours") == None
    ensures ParseUnit("") == None
  {
    assert Lower("year") == "year";
    assert Lower("hours") == "hours";
  }

  /** A bad unit is reported even when the amount is bad too. */
  lemma UnitCheckedFirst(now: DateTime, unit: string, amount: int)
    requires InPythonRange(now)
    requires ParseUnit(unit).None?
    ensures ComputeExpiry(now, unit, amount) == Err(InvalidUnit)
  {
  }

  /** `days`: exactly `amount` calendar days later, same time of day. */
  lemma ExpiryDays(now: DateTime, unit: string, amount: int, e: DateTime)
    requires InPythonRange(now) && ParseUnit(unit) == Some(Days) && amount > 0
    requires ComputeExpiry(now, unit, amount) == Ok(e)
    ensures Ordinal(e.date) == Ordinal(now.date) + amount
    ensures e.time == now.time
  {
  }

  /** `weeks`: exactly `7 * amount` calendar days later, same time of day. */
  lemma ExpiryWeeks(now: DateTime, unit: string, amount: int, e: DateTime)
    requires InPythonRange(now) && ParseUnit(unit) == Some(Weeks) && amount > 0
    requires ComputeExpiry(now, unit, amount) == Ok(e)
    ensures Ordinal(e.date) == Ordinal(now.date) + 7 * amount
    ensures e.time == now.time
  {
  }

  /** `amount` weeks and `7 * amount` days give the same outcome, error or not. */
  lemma WeeksAreSevenDays(now: DateTime, amount: int)
    requires InPythonRange(now)
    ensures ComputeExpiry(now, "weeks", amount) == ComputeExpiry(now, "days", 7 * amount)
  {
    assert Lower("weeks") == "weeks";
    assert Lower("days") == "days";
  }

  /**
   * `months`: the month index moves forward by `amount` (with year carry),
   * the day is clamped to the target month, and the time of day is kept.
   */
  lemma ExpiryMonths(now: DateTime, unit: string, amount: int, e: DateTime)
    requires InPythonRange(now) && ParseUnit(unit) == Some(Months) && amount > 0
    requires ComputeExpiry(now, unit, amount) == Ok(e)
    ensures MonthIndex(e.date) == MonthIndex(now.date) + amount
    ensures 1 <= e.date.month <= 12
    ensures e.date.day == Min(now.date.day, DaysInMonth(e.date.year, e.date.month))
    ensures e.time == now.time
  {
  }

  /** `years`: same month, year moved by `amount`, 29 February clamped in a common year. */
  lemma ExpiryYears(now: DateTime, unit: string, amount: int, e: DateTime)
    requires InPythonRange(now) && ParseUnit(unit) == Some(Years) && amount > 0
    requires ComputeExpiry(now, unit, amount) == Ok(e)
    ensures e.date.year == now.date.year + amount && e.date.month == now.date.month
    ensures now.date.month == 2 && now.date.day == 29 ==>
              e.date.day == if IsLeap(now.date.year + amount) then 29 else 28
    ensures !(now.date.month == 2 && now.date.day == 29) ==> e.date.day == now.date.day
    ensures e.time == now.time
  {
    AddYearsDay(now.date, amount);
  }

  /** `amount` years and `12 * amount` months give the same outcome. */
  lemma YearsAreTwelveMonths(now: DateTime, amount: int)
    requires InPythonRange(now)
    ensures ComputeExpiry(now, "years", amount) == ComputeExpiry(now, "months", 12 * amount)
  {
    assert Lower("years") == "years";
    assert Lower("months") == "months";
    if amount > 0 {
      AddYearsIsTwelveMonths(now.date, amount);
    }
  }

  /** A valid request fails only when the result would pass the year 9999. */
  lemma OnlyRangeErrorsRemain(now: DateTime, unit: string, amount: int)
    requires InPythonRange(now) && ParseUnit(unit).Some? && amount > 0
    ensures ComputeExpiry(now, unit, amount).Ok? || ComputeExpiry(now, unit, amount) == Err(OutOfRange)
    ensures ComputeExpiry(now, unit, amount) == Err(OutOfRange) <==>
              Shift(now, ParseUnit(unit).value, amount).date.year > MaxYear
  {
  }

  /** A month end clamps to the last day of the target month: 31 January becomes 29 February in a leap year. */
  lemma MonthEndLeapExample()
    ensures ComputeExpiry(DateTime(Date(2024, 1, 31), Time(9, 30, 0, 0)), "months", 1)
              == Ok(DateTime(Date(2024, 2, 29), Time(9, 30, 0, 0)))
  {
    assert Lower("months") == "months";
  }

  /** 31 January becomes 28 February in a common year, whatever the case of the unit. */
  lemma MonthEndCommonExample()
    ensures ComputeExpiry(DateTime(Date(2023, 1, 31), Time(0, 0, 0, 0)), "Months", 1)
              == Ok(DateTime(Date(2023, 2, 28), Time(0, 0, 0, 0)))
  {
    assert Lower("Months") == "months";
  }

  /** The clamp also applies when the months carry into the next year. */
  lemma MonthEndCarryExample()
    ensures ComputeExpiry(DateTime(Date(2024, 11, 30), Time(0, 0, 0, 0)), "months", 3)
              == Ok(DateTime(Date(2025, 2, 28), Time(0, 0, 0, 0)))
  {
    assert Lower("months") == "months";
  }

  /** 29 February moves to 28 February when the target year is common. */
  lemma LeapDayCommonExample()
    ensures ComputeExpiry(DateTime(Date(2024, 2, 29), Time(0, 0, 0, 0)), "years", 1)
              == Ok(DateTime(Date(2025, 2, 28), Time(0, 0, 0, 0)))
  {
    assert Lower("years") == "years";
    assert !IsLeap(2025);
  }

  /** 29 February stays 29 February when the target year is a leap year. */
  lemma LeapDayLeapExample()
    ensures ComputeExpiry(DateTime(Date(2024, 2, 29), Time(0, 0, 0, 0)), "years", 4)
              == Ok(DateTime(Date(2028, 2, 29), Time(0, 0, 0, 0)))
  {
    assert Lower("years") == "years";
    assert IsLeap(2028);
  }

  /** The last representable month cannot be passed. */
  lemma PastYear9999Example()
    ensures ComputeExpiry(DateTime(Date(9999, 12, 1), Time(0, 0, 0, 0)), "months", 1) == Err(OutOfRange)
  {
    assert Lower("months") == "months";
  }

  /** 30 days from 2024-01-01 00:00 is 2024-01-31 00:00. */
  lemma ThirtyDaysExample()
    ensures ComputeExpiry(DateTime(Date(2024, 1, 1), Time(0, 0, 0, 0)), "days", 30)
              == Ok(DateTime(Date(2024, 1, 31), Time(0, 0, 0, 0)))
  {
    var d := Date(2024, 1, 1);
    var e := Date(2024, 1, 31);
    assert Lower("days") == "days";
    AddDaysUnique(d, 30, e);
    assert Ordinal(e) == Ordinal(d) + 30;
  }
}
