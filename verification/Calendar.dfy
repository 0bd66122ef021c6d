/** The proleptic Gregorian calendar of src/datetime.rs. */
module Calendar {
  datatype Date = Date(year: int, month: int, day: int)

  /** Integer division as the program's `i64` does it: towards zero. */
  function TruncDiv(a: int, b: int): int
    requires b > 0
  {
    if a >= 0 then a / b else -((-a) / b)
  }

  predicate IsLeap(year: int) {
    year % 4 == 0 && (year % 100 != 0 || year % 400 == 0)
  }

  function DaysInMonth(year: int, month: int): int {
    match month
    case 1 | 3 | 5 | 7 | 8 | 10 | 12 => 31
    case 4 | 6 | 9 | 11 => 30
    case 2 => if IsLeap(year) then 29 else 28
    case _ => 0
  }

  predicate Valid(d: Date) {
    1 <= d.month <= 12 && 1 <= d.day <= DaysInMonth(d.year, d.month)
  }

  function DaysFromCivil(year: int, month: int, day: int): int {
    var shifted := if month <= 2 then year - 1 else year;
    var era := TruncDiv(if shifted >= 0 then shifted else shifted - 399, 400);
    var yearOfEra := shifted - era * 400;
    var dayOfYear := TruncDiv(153 * (if month > 2 then month - 3 else month + 9) + 2, 5) + day - 1;
    var dayOfEra := yearOfEra * 365 + TruncDiv(yearOfEra, 4) - TruncDiv(yearOfEra, 100) + dayOfYear;
    era * 146_097 + dayOfEra - 719_468
  }

  function Count(d: Date): int {
    DaysFromCivil(d.year, d.month, d.day)
  }

  // ----- The calendar as month lengths added up one by one -----

  /** Days of `year` before the first of `month`; month 13 is the whole year. */
  function DaysBeforeMonth(year: int, month: int): int
    requires 1 <= month <= 13
    decreases month
  {
    if month == 1 then 0
    else DaysBeforeMonth(year, month - 1) + DaysInMonth(year, month - 1)
  }

  /** Days from the first of January 1970 to the first of January of `year`. */
  function DaysBeforeYear(year: int): int
    decreases if year >= 1970 then year - 1970 else 1970 - year
  {
    if year == 1970 then 0
    else if year > 1970 then DaysBeforeYear(year - 1) + DaysBeforeMonth(year - 1, 13)
    else DaysBeforeYear(year + 1) - DaysBeforeMonth(year, 13)
  }

  /** Days from the first of March to the first of `month`, which is the straight line of the conversion. */
  function MarchOffset(month: int): int
    requires 1 <= month <= 12
  {
    match month
    case 1 => 306 case 2 => 337 case 3 => 0 case 4 => 31 case 5 => 61 case 6 => 92
    case 7 => 122 case 8 => 153 case 9 => 184 case 10 => 214 case 11 => 245 case 12 => 275
  }

  lemma MarchOffsetIsLinear(month: int)
    requires 1 <= month <= 12
    ensures TruncDiv(153 * (if month > 2 then month - 3 else month + 9) + 2, 5) == MarchOffset(month)
  {
  }

  lemma {:induction false} MonthOffsets(year: int, month: int)
    requires 1 <= month <= 12
    ensures DaysBeforeMonth(year, month) ==
            if month <= 2 then MarchOffset(month) - 306
            else MarchOffset(month) + if IsLeap(year) then 60 else 59
  {
    if 1 < month { MonthOffsets(year, month - 1); }
  }

  lemma WholeYear(year: int)
    ensures DaysBeforeMonth(year, 13) == if IsLeap(year) then 366 else 365
  {
    MonthOffsets(year, 12);
  }

  /** Rounding towards zero with a bias of 399 is rounding down. */
  lemma EraOf(shifted: int, era: int, place: int)
    requires 0 <= place < 400 && shifted == 400 * era + place
    ensures TruncDiv(if shifted >= 0 then shifted else shifted - 399, 400) == era
  {
  }

  /** The conversion in terms of the March-based year's era and place in it. */
  lemma FromEra(year: int, month: int, day: int, era: int, place: int)
    requires 1 <= month <= 12 && 0 <= place < 400
    requires 400 * era + place == if month <= 2 then year - 1 else year
    ensures DaysFromCivil(year, month, day) ==
            era * 146_097 + place * 365 + LeapDays(place) + MarchOffset(month) + day - 1 - 719_468
  {
    EraOf(400 * era + place, era, place);
    MarchOffsetIsLinear(month);
  }

  /** Days and months move the count along within one March-based year. */
  lemma WithinMarchYear(year: int, from: int, month: int, day: int)
    requires 1 <= from <= 12 && 1 <= month <= 12 && (from <= 2 <==> month <= 2)
    ensures DaysFromCivil(year, month, day) - DaysFromCivil(year, from, 1) ==
            MarchOffset(month) - MarchOffset(from) + day - 1
  {
    var shifted := if month <= 2 then year - 1 else year;
    FromEra(year, month, day, shifted / 400, shifted % 400);
    FromEra(year, from, 1, shifted / 400, shifted % 400);
  }

  lemma WithinYear(d: Date)
    requires Valid(d)
    ensures Count(d) == DaysFromCivil(d.year, 1, 1) + DaysBeforeMonth(d.year, d.month) + d.day - 1
  {
    MonthOffsets(d.year, d.month);
    if d.month <= 2 {
      WithinMarchYear(d.year, 1, d.month, d.day);
    } else {
      WithinMarchYear(d.year, 3, d.month, d.day);
      MarchFollowsFebruary(d.year);
    }
  }

  lemma Mod4(a: int, b: int)
    ensures (4 * a + b) % 4 == b % 4
  {
  }

  lemma Mod100(a: int, b: int)
    ensures (100 * a + b) % 100 == b % 100
  {
  }

  lemma Mod400(a: int, b: int)
    ensures (400 * a + b) % 400 == b % 400
  {
  }

  predicate LeapPlace(place: int) {
    place % 4 == 0 && (place % 100 != 0 || place == 0 || place == 400)
  }

  /** Which years are leap years depends on the place in the 400-year era alone. */
  lemma LeapInEra(year: int, era: int, place: int)
    requires 0 <= place <= 400 && year == 400 * era + place
    ensures IsLeap(year) <==> LeapPlace(place)
  {
    Mod4(100 * era, place);
    Mod100(4 * era, place);
    Mod400(era, place);
  }

  /** Leap days of an era before the March-based year at `place`. */
  function LeapDays(place: int): int {
    place / 4 - place / 100
  }

  lemma LeapDaysStep(place: nat)
    requires place < 399
    ensures LeapDays(place + 1) == LeapDays(place) + if LeapPlace(place + 1) then 1 else 0
  {
    assert (place + 1) / 4 == place / 4 + if (place + 1) % 4 == 0 then 1 else 0;
    assert (place + 1) / 100 == place / 100 + if (place + 1) % 100 == 0 then 1 else 0;
    Mod4(25 * ((place + 1) / 100), (place + 1) % 100);
  }

  /** From the first of January to the first of March of one year. */
  lemma MarchFollowsFebruary(year: int)
    ensures DaysFromCivil(year, 3, 1) - DaysFromCivil(year, 1, 1) == if IsLeap(year) then 60 else 59
  {
    var era, place := (year - 1) / 400, (year - 1) % 400;
    LeapInEra(year, era, place + 1);
    FromEra(year, 1, 1, era, place);
    if place < 399 {
      LeapDaysStep(place);
      FromEra(year, 3, 1, era, place + 1);
    } else {
      FromEra(year, 3, 1, era + 1, 0);
    }
  }

  lemma YearFollowsYear(year: int)
    ensures DaysFromCivil(year + 1, 1, 1) == DaysFromCivil(year, 1, 1) + DaysBeforeMonth(year, 13)
  {
    MarchFollowsFebruary(year);
    WholeYear(year);
    var era, place := year / 400, year % 400;
    FromEra(year + 1, 1, 1, era, place);
    FromEra(year, 3, 1, era, place);
  }

  lemma {:induction false} YearStart(year: int)
    ensures DaysFromCivil(year, 1, 1) == DaysBeforeYear(year)
    decreases if year >= 1970 then year - 1970 else 1970 - year
  {
    if year > 1970 {
      YearStart(year - 1);
      YearFollowsYear(year - 1);
    } else if year < 1970 {
      YearStart(year + 1);
      YearFollowsYear(year);
    }
  }

  /** The days from the epoch to a date, added up year by year and month by month. */
  function SumOfLengths(d: Date): int
    requires Valid(d)
  {
    DaysBeforeYear(d.year) + DaysBeforeMonth(d.year, d.month) + d.day - 1
  }

  // ----- What the conversion means -----

  /** The constant divisions count exactly the days that month lengths add up to. */
  lemma CountsMonthLengths(d: Date)
    requires Valid(d)
    ensures Count(d) == SumOfLengths(d)
  {
    WithinYear(d);
    YearStart(d.year);
  }

  /** The date one day later, by month lengths alone. */
  function Tomorrow(d: Date): Date
    requires Valid(d)
  {
    if d.day < DaysInMonth(d.year, d.month) then Date(d.year, d.month, d.day + 1)
    else if d.month < 12 then Date(d.year, d.month + 1, 1)
    else Date(d.year + 1, 1, 1)
  }

  function Yesterday(d: Date): (y: Date)
    requires Valid(d)
    ensures Valid(y) && Tomorrow(y) == d
  {
    if d.day > 1 then Date(d.year, d.month, d.day - 1)
    else if d.month > 1 then Date(d.year, d.month - 1, DaysInMonth(d.year, d.month - 1))
    else Date(d.year - 1, 12, 31)
  }

  lemma NextYear(year: int)
    ensures DaysBeforeYear(year + 1) == DaysBeforeYear(year) + DaysBeforeMonth(year, 13)
  {
  }

  lemma SumStepsByOne(d: Date)
    requires Valid(d)
    ensures Valid(Tomorrow(d)) && SumOfLengths(Tomorrow(d)) == SumOfLengths(d) + 1
  {
    if d.month == 12 { NextYear(d.year); }
  }

  /** The count is 0 at the epoch and grows by one from each day to the next. */
  lemma TomorrowIsOneMore(d: Date)
    requires Valid(d)
    ensures Count(Date(1970, 1, 1)) == 0
    ensures Valid(Tomorrow(d)) && Count(Tomorrow(d)) == Count(d) + 1
  {
    CountsMonthLengths(Date(1970, 1, 1));
    CountsMonthLengths(d);
    SumStepsByOne(d);
    CountsMonthLengths(Tomorrow(d));
  }

  ghost predicate Before(a: Date, b: Date) {
    a.year < b.year
    || (a.year == b.year && a.month < b.month)
    || (a.year == b.year && a.month == b.month && a.day < b.day)
  }

  lemma {:induction false} MonthsAccumulate(year: int, a: int, b: int)
    requires 1 <= a < b <= 13
    ensures 0 <= DaysBeforeMonth(year, a)
    ensures DaysBeforeMonth(year, a) + DaysInMonth(year, a) <= DaysBeforeMonth(year, b)
    decreases b, a
  {
    if a < b - 1 { MonthsAccumulate(year, a, b - 1); }
    if 1 < a { MonthsAccumulate(year, a - 1, a); }
  }

  lemma {:induction false} YearsAccumulate(a: int, b: int)
    requires a < b
    ensures DaysBeforeYear(a) + DaysBeforeMonth(a, 13) <= DaysBeforeYear(b)
    decreases b - a
  {
    NextYear(b - 1);
    if a < b - 1 {
      YearsAccumulate(a, b - 1);
      WholeYear(b - 1);
    }
  }

  lemma EarlierSumsLess(a: Date, b: Date)
    requires Valid(a) && Valid(b) && Before(a, b)
    ensures SumOfLengths(a) < SumOfLengths(b)
  {
    if a.year < b.year {
      YearsAccumulate(a.year, b.year);
      MonthsAccumulate(a.year, a.month, 13);
      MonthsAccumulate(b.year, b.month, 13);
    } else if a.month < b.month {
      MonthsAccumulate(a.year, a.month, b.month);
    }
  }

  /** Later dates count higher, so no two dates share a count. */
  lemma CountIsStrictlyIncreasing(a: Date, b: Date)
    requires Valid(a) && Valid(b)
    ensures Count(a) < Count(b) <==> Before(a, b)
    ensures Count(a) == Count(b) <==> a == b
  {
    CountsMonthLengths(a);
    CountsMonthLengths(b);
    if Before(a, b) {
      EarlierSumsLess(a, b);
    } else if Before(b, a) {
      EarlierSumsLess(b, a);
    }
  }

  /** Every whole number is the count of exactly one date: the conversion is a bijection. */
  lemma {:induction false} EveryDayHasADate(n: int) returns (d: Date)
    ensures Valid(d) && Count(d) == n
    ensures forall other :: Valid(other) && Count(other) == n ==> other == d
    decreases if n >= 0 then n else -n
  {
    if n == 0 {
      d := Date(1970, 1, 1);
      TomorrowIsOneMore(d);
    } else if n > 0 {
      d := EveryDayHasADate(n - 1);
      TomorrowIsOneMore(d);
      d := Tomorrow(d);
    } else {
      d := EveryDayHasADate(n + 1);
      TomorrowIsOneMore(Yesterday(d));
      d := Yesterday(d);
    }
    forall other | Valid(other) && Count(other) == n
      ensures other == d
    {
      CountIsStrictlyIncreasing(other, d);
    }
  }
}
