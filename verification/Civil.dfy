/**
  Days since the Unix epoch to proleptic-Gregorian dates.

  The algorithm is compared with the calendar itself: the leap-year rule of
  RFC 3339 appendix C, the month lengths of its section 5.7, and day-by-day
  stepping.
 */
module Civil {
  import opened Common

  import opened ModularArithmetic

  datatype Date = Date(year: int, month: int, day: int)

  const I64_MIN := -0x8000_0000_0000_0000
  const I64_MAX := 0x7fff_ffff_ffff_ffff

  predicate InI64(x: int) {
    I64_MIN <= x <= I64_MAX
  }

  // ---- the calendar ----

  predicate IsLeap(year: int) {
    year % 4 == 0 && (year % 100 != 0 || year % 400 == 0)
  }

  function DaysInMonth(year: int, month: int): int {
    if month == 2 then (if IsLeap(year) then 29 else 28)
    else if month == 4 || month == 6 || month == 9 || month == 11 then 30
    else 31
  }

  predicate ValidDate(d: Date) {
    1 <= d.month <= 12 && 1 <= d.day <= DaysInMonth(d.year, d.month)
  }

  /** The following calendar day. */
  function NextDay(d: Date): Date {
    if d.day < DaysInMonth(d.year, d.month) then d.(day := d.day + 1)
    else if d.month < 12 then Date(d.year, d.month + 1, 1)
    else Date(d.year + 1, 1, 1)
  }

  // ---- the algorithm ----

  /** Integer division truncating toward zero. */
  function TruncDiv(a: int, b: int): int
    requires b > 0
  {
    if a >= 0 then a / b else -((-a) / b)
  }

  function Era(z: int): int {
    TruncDiv(if z >= 0 then z else z - 146096, 146097)
  }

  function DayOfEra(z: int): int {
    z - Era(z) * 146097
  }

  function YearOfEra(doe: int): int {
    TruncDiv(doe - TruncDiv(doe, 1460) + TruncDiv(doe, 36524) - TruncDiv(doe, 146096), 365)
  }

  /** Days of the era before the March-based year `yoe`. */
  function YearStart(yoe: int): int {
    365 * yoe + TruncDiv(yoe, 4) - TruncDiv(yoe, 100)
  }

  function DayOfYear(doe: int): int {
    doe - YearStart(YearOfEra(doe))
  }

  /** Month counted from March. */
  function MonthIndex(doy: int): int {
    TruncDiv(5 * doy + 2, 153)
  }

  function MonthStart(mp: int): int {
    TruncDiv(153 * mp + 2, 5)
  }

  /** The date of day-of-year `doy` in the March-based year `y`. */
  function MarchDate(y: int, doy: int): Date {
    var mp := MonthIndex(doy);
    var d := doy - MonthStart(mp) + 1;
    var m := if mp < 10 then mp + 3 else mp - 9;
    Date(if m <= 2 then y + 1 else y, m, d)
  }

  function MarchYear(z: int): int {
    YearOfEra(DayOfEra(z)) + Era(z) * 400
  }

  /** The algorithm over unbounded integers. */
  function CivilOf(day: int): Date {
    var z := day + 719468;
    MarchDate(MarchYear(z), DayOfYear(DayOfEra(z)))
  }

  /** The algorithm on 64-bit integers: the first addition is the only step that can overflow. */
  function CivilFromDays(day: int): (r: Option<Date>)
    requires InI64(day)
  {
    if InI64(day + 719468) then Some(CivilOf(day)) else None
  }

  // ---- the intermediate values ----

  lemma EraIsFloor(z: int)
    ensures Era(z) == z / 146097 && DayOfEra(z) == z % 146097
  {
  }

  /** Centuries, four-year cycles and years split a day of the era. */
  lemma YearFromParts(doe: int, c: int, f: int, t: int)
    requires 0 <= c <= 3 && 0 <= f <= 24 && 0 <= t <= 1460 && 1461 * f + t <= 36523
    requires doe == 36524 * c + 1461 * f + t
    ensures var g := if t < 1095 then t / 365 else 3;
            YearOfEra(doe) == 100 * c + 4 * f + g && DayOfYear(doe) == t - 365 * g
  {
    var e := if 24 * c + f + t >= 1460 then 1 else 0;
    assert doe / 1460 == 25 * c + f + e;
    assert doe / 36524 == c;
    var g := if t < 1095 then t / 365 else 3;
    assert (36500 * c + 1460 * f + t - e) / 365 == 100 * c + 4 * f + g;
    var y := 100 * c + 4 * f + g;
    assert y / 4 == 25 * c + f;
    assert y / 100 == c;
  }

  /** Days from 0000-03-01 to the first of March of year `y`. */
  function DaysToMarch(y: int): int {
    365 * y + y / 4 - y / 100 + y / 400
  }

  lemma YearLength(y: int)
    ensures DaysToMarch(y) - DaysToMarch(y - 1) == if IsLeap(y) then 366 else 365
  {
    QuotientStep(y, 4);
    QuotientStep(y, 100);
    QuotientStep(y, 400);
    MultipleOfMultiple(y, 100, 4);
    MultipleOfMultiple(y, 4, 25);
  }

  lemma QuotientStep(y: int, k: int)
    requires k > 1
    ensures y / k - (y - 1) / k == if y % k == 0 then 1 else 0
  {
    var q, r := y / k, y % k;
    if r == 0 {
      ModIsUnique(y - 1, q - 1, k - 1, k);
    } else {
      ModIsUnique(y - 1, q, r - 1, k);
    }
  }

  lemma MultipleOfMultiple(y: int, k: int, j: int)
    requires k > 0 && j > 0
    ensures k * j > 0
    ensures y % (k * j) == 0 ==> y % k == 0
  {
    if y % (k * j) == 0 {
      var q := y / (k * j);
      Reassociate(q, j, k);
      ModIsUnique(y, q * j, 0, k);
    }
  }

  lemma CycleEndIsLeap(c: int, f: int)
    requires 0 <= f <= 23
    ensures IsLeap(100 * c + 4 * f + 4)
  {
    var y := 100 * c + 4 * f + 4;
    ModIsUnique(y, c, 4 * f + 4, 100);
    ModIsUnique(y, 25 * c + f + 1, 0, 4);
  }

  /** The documented ranges of `yoe` and `doy`, and what the two mean together. */
  lemma YearOfEraRange(doe: int)
    requires 0 <= doe <= 146096
    ensures 0 <= YearOfEra(doe) <= 399
    ensures 0 <= DayOfYear(doe) <= 365
    ensures DayOfYear(doe) == 365 ==> IsLeap(YearOfEra(doe) + 1)
  {
    if doe == 146096 {
      assert YearOfEra(doe) == 399;
    } else {
      var c, r := doe / 36524, doe % 36524;
      var f, t := r / 1461, r % 1461;
      YearFromParts(doe, c, f, t);
      hide YearOfEra, DayOfYear, IsLeap;
      if t == 1460 {
        CycleEndIsLeap(c, f);
      }
    }
  }

  lemma EraStart(yoe: int, era: int)
    requires 0 <= yoe <= 399
    ensures DaysToMarch(yoe + era * 400) == YearStart(yoe) + era * 146097
  {
    var y := yoe + era * 400;
    assert y / 4 == yoe / 4 + era * 100;
    assert y / 100 == yoe / 100 + era * 4;
    assert y / 400 == era;
  }

  lemma LeapShift(y: int, era: int)
    ensures IsLeap(y + era * 400) == IsLeap(y)
  {
    ModShift(y, era * 100, 4);
    ModShift(y, era * 4, 100);
    ModShift(y, era, 400);
  }

  /** A shifted day number is the start of its March-based year plus the day of that year. */
  lemma MarchDecomposition(z: int)
    ensures var y, doy := MarchYear(z), DayOfYear(DayOfEra(z));
            && z == DaysToMarch(y) + doy
            && 0 <= doy <= 365
            && (doy == 365 ==> IsLeap(y + 1))
  {
    hide IsLeap, DaysToMarch, YearOfEra, YearStart, Era;
    EraIsFloor(z);
    var era, doe := Era(z), DayOfEra(z);
    var yoe := YearOfEra(doe);
    YearOfEraRange(doe);
    EraStart(yoe, era);
    LeapShift(yoe + 1, era);
    assert MarchYear(z) + 1 == yoe + 1 + era * 400;
  }

  /** The documented ranges of `mp`, `d` and `m`: the date is valid. */
  lemma MarchDateIsValid(y: int, doy: int)
    requires 0 <= doy <= 365 && (doy == 365 ==> IsLeap(y + 1))
    ensures 0 <= MonthIndex(doy) <= 11
    ensures ValidDate(MarchDate(y, doy))
  {
    var mp := MonthIndex(doy);
    MonthTable(doy);
  }

  /** The March-based month table the two divisions encode. */
  lemma MonthTable(doy: int)
    requires 0 <= doy <= 365
    ensures var mp := MonthIndex(doy);
            && 0 <= mp <= 11
            && MonthStart(mp) == [0, 31, 61, 92, 122, 153, 184, 214, 245, 275, 306, 337][mp]
            && MonthStart(mp) <= doy
            && (mp < 11 ==> doy < [31, 61, 92, 122, 153, 184, 214, 245, 275, 306, 337][mp])
  {
  }

  // ---- an independent day count ----

  function DaysBeforeYear(y: int): int {
    365 * (y - 1) + (y - 1) / 4 - (y - 1) / 100 + (y - 1) / 400
  }

  function DaysBeforeMonth(y: int, m: int): int
    requires 1 <= m <= 12
    decreases m
  {
    if m == 1 then 0 else DaysBeforeMonth(y, m - 1) + DaysInMonth(y, m - 1)
  }

  /** Position in the proleptic calendar: 0001-01-01 is 1. */
  function Ordinal(d: Date): int
    requires ValidDate(d)
  {
    DaysBeforeYear(d.year) + DaysBeforeMonth(d.year, d.month) + d.day
  }

  function LeapDay(y: int): int {
    if IsLeap(y) then 1 else 0
  }

  lemma YearStep(y: int)
    ensures DaysBeforeYear(y + 1) == DaysBeforeYear(y) + 365 + LeapDay(y)
    ensures DaysBeforeYear(y) == DaysToMarch(y) - 365 - LeapDay(y)
  {
    YearLength(y);
  }

  lemma MonthSums(y: int)
    ensures DaysBeforeMonth(y, 2) == 31 && DaysBeforeMonth(y, 3) == 59 + LeapDay(y)
    ensures DaysBeforeMonth(y, 4) == 90 + LeapDay(y) && DaysBeforeMonth(y, 5) == 120 + LeapDay(y)
    ensures DaysBeforeMonth(y, 6) == 151 + LeapDay(y) && DaysBeforeMonth(y, 7) == 181 + LeapDay(y)
    ensures DaysBeforeMonth(y, 8) == 212 + LeapDay(y) && DaysBeforeMonth(y, 9) == 243 + LeapDay(y)
    ensures DaysBeforeMonth(y, 10) == 273 + LeapDay(y) && DaysBeforeMonth(y, 11) == 304 + LeapDay(y)
    ensures DaysBeforeMonth(y, 12) == 334 + LeapDay(y)
  {
    hide IsLeap;
    assert DaysBeforeMonth(y, 3) == DaysBeforeMonth(y, 2) + DaysInMonth(y, 2);
    assert DaysBeforeMonth(y, 5) == DaysBeforeMonth(y, 4) + DaysInMonth(y, 4);
    assert DaysBeforeMonth(y, 7) == DaysBeforeMonth(y, 6) + DaysInMonth(y, 6);
    assert DaysBeforeMonth(y, 9) == DaysBeforeMonth(y, 8) + DaysInMonth(y, 8);
    assert DaysBeforeMonth(y, 11) == DaysBeforeMonth(y, 10) + DaysInMonth(y, 10);
  }

  /** Where each March-based month starts in its calendar year. */
  lemma MonthStarts(y: int, mp: int)
    requires 0 <= mp <= 11
    ensures mp < 10 ==> DaysBeforeMonth(y, mp + 3) == 59 + LeapDay(y) + MonthStart(mp)
    ensures mp >= 10 ==> DaysBeforeMonth(y + 1, mp - 9) == MonthStart(mp) - 306
  {
    MonthSums(y);
    MonthSums(y + 1);
    assert DaysBeforeMonth(y + 1, 1) == 0;
    hide DaysBeforeMonth, IsLeap;
  }

  /** The position of a March-based date in the calendar. */
  lemma MarchDateOrdinal(y: int, doy: int)
    requires 0 <= doy <= 365 && (doy == 365 ==> IsLeap(y + 1))
    ensures ValidDate(MarchDate(y, doy))
    ensures Ordinal(MarchDate(y, doy)) == DaysToMarch(y) + doy - 305
  {
    MarchDateIsValid(y, doy);
    hide DaysBeforeYear, DaysBeforeMonth, DaysToMarch, IsLeap, MonthIndex, MonthStart, ValidDate;
    MonthStarts(y, MonthIndex(doy));
    YearStep(y);
  }

  /** The algorithm returns the valid date whose position is the day number plus a constant. */
  lemma CivilIsCalendarDay(day: int)
    ensures ValidDate(CivilOf(day)) && Ordinal(CivilOf(day)) == day + 719163
  {
    var z := day + 719468;
    MarchDecomposition(z);
    MarchDateOrdinal(MarchYear(z), DayOfYear(DayOfEra(z)));
  }

  // ---- the day count orders the calendar ----

  lemma NextDayIsValid(d: Date)
    requires ValidDate(d)
    ensures ValidDate(NextDay(d))
  {
  }

  /** Stepping one calendar day moves the position by one. */
  lemma OrdinalOfNextDay(d: Date)
    requires ValidDate(d)
    ensures ValidDate(NextDay(d)) && Ordinal(NextDay(d)) == Ordinal(d) + 1
  {
    NextDayIsValid(d);
    if d.month == 12 && d.day == 31 {
      MonthSums(d.year);
      YearStep(d.year);
    }
    hide DaysBeforeYear, IsLeap;
  }

  lemma OrdinalWithinYear(d: Date)
    requires ValidDate(d)
    ensures DaysBeforeYear(d.year) < Ordinal(d) <= DaysBeforeYear(d.year + 1)
  {
    MonthSums(d.year);
    YearStep(d.year);
    hide DaysBeforeYear, IsLeap;
  }

  lemma {:induction false} YearsAreOrdered(y: int, later: int)
    requires y <= later
    ensures DaysBeforeYear(y) <= DaysBeforeYear(later)
    decreases later - y
  {
    if y < later {
      YearsAreOrdered(y, later - 1);
      YearStep(later - 1);
      hide DaysBeforeYear;
    }
  }

  lemma {:induction false} MonthsAreOrdered(y: int, m: int, later: int)
    requires 1 <= m < later <= 12
    ensures DaysBeforeMonth(y, m) + DaysInMonth(y, m) <= DaysBeforeMonth(y, later)
    decreases later - m
  {
    if m < later - 1 {
      MonthsAreOrdered(y, m, later - 1);
    }
  }

  predicate Before(d: Date, e: Date) {
    d.year < e.year || (d.year == e.year && (d.month < e.month || (d.month == e.month && d.day < e.day)))
  }

  /** Earlier dates have smaller positions. */
  lemma OrdinalIsMonotone(d: Date, e: Date)
    requires ValidDate(d) && ValidDate(e) && Before(d, e)
    ensures Ordinal(d) < Ordinal(e)
  {
    if d.year < e.year {
      OrdinalWithinYear(d);
      OrdinalWithinYear(e);
      YearsAreOrdered(d.year + 1, e.year);
    } else if d.month < e.month {
      MonthsAreOrdered(d.year, d.month, e.month);
    }
  }

  lemma OrdinalIsInjective(d: Date, e: Date)
    requires ValidDate(d) && ValidDate(e) && Ordinal(d) == Ordinal(e)
    ensures d == e
  {
    if Before(d, e) {
      OrdinalIsMonotone(d, e);
    } else if Before(e, d) {
      OrdinalIsMonotone(e, d);
    }
  }

  // ---- main results ----

  /** Day 0 is the epoch. */
  lemma EpochDate()
    ensures CivilFromDays(0) == Some(Date(1970, 1, 1))
  {
    CivilIsCalendarDay(0);
    OrdinalIsInjective(CivilOf(0), Date(1970, 1, 1));
  }

  /** Consecutive day numbers are consecutive calendar days. */
  lemma CivilSuccessor(day: int)
    ensures CivilOf(day + 1) == NextDay(CivilOf(day))
  {
    CivilIsCalendarDay(day);
    CivilIsCalendarDay(day + 1);
    OrdinalOfNextDay(CivilOf(day));
    OrdinalIsInjective(CivilOf(day + 1), NextDay(CivilOf(day)));
  }

  /** Every valid date is produced by exactly one day number. */
  lemma CivilIsBijective(d: Date, day: int)
    requires ValidDate(d)
    ensures CivilOf(day) == d <==> day == Ordinal(d) - 719163
  {
    CivilIsCalendarDay(Ordinal(d) - 719163);
    OrdinalIsInjective(CivilOf(Ordinal(d) - 719163), d);
    CivilIsCalendarDay(day);
  }

  /**
    On 64-bit integers the result is missing exactly for the last 719468 day
    numbers, and otherwise no intermediate value leaves the 64-bit range.
   */
  lemma OnlyFirstAdditionOverflows(day: int)
    requires InI64(day)
    ensures CivilFromDays(day).None? <==> day > I64_MAX - 719468
    ensures CivilFromDays(day).Some? ==>
              var z := day + 719468;
              && InI64(z - 146096) && InI64(Era(z)) && InI64(Era(z) * 146097)
              && 0 <= DayOfEra(z) <= 146096
              && 0 <= YearOfEra(DayOfEra(z)) <= 399
              && InI64(Era(z) * 400) && InI64(MarchYear(z) + 1)
              && 0 <= DayOfYear(DayOfEra(z)) <= 365
              && 0 <= MonthIndex(DayOfYear(DayOfEra(z))) <= 11
              && ValidDate(CivilFromDays(day).value)
  {
    if CivilFromDays(day).Some? {
      var z := day + 719468;
      EraIsFloor(z);
      YearOfEraRange(DayOfEra(z));
      MonthTable(DayOfYear(DayOfEra(z)));
      CivilIsCalendarDay(day);
      hide YearOfEra, DayOfYear, MonthIndex;
    }
  }

  /** The 64-bit function steps day by day over its whole domain. */
  lemma CivilFromDaysSteps(day: int)
    requires I64_MIN <= day < I64_MAX
    ensures CivilFromDays(day + 1).Some? ==>
              CivilFromDays(day).Some? && CivilFromDays(day + 1).value == NextDay(CivilFromDays(day).value)
  {
    CivilSuccessor(day);
  }

  /** Its image is every valid date between the first and the last one, each hit once. */
  lemma CivilFromDaysImage(d: Date)
    requires ValidDate(d)
    ensures (exists day :: InI64(day) && CivilFromDays(day) == Some(d))
            <==> !Before(d, CivilOf(I64_MIN)) && !Before(CivilOf(I64_MAX - 719468), d)
    ensures forall a, b :: InI64(a) && InI64(b) && CivilFromDays(a) == CivilFromDays(b) == Some(d) ==> a == b
  {
    hide CivilOf, Ordinal;
    var day := Ordinal(d) - 719163;
    CivilIsBijective(d, day);
    forall a
      ensures CivilOf(a) == d ==> a == day
    {
      CivilIsBijective(d, a);
    }
    CivilOrder(I64_MIN, day);
    CivilOrder(day, I64_MAX - 719468);
    if I64_MIN <= day <= I64_MAX - 719468 {
      assert CivilFromDays(day) == Some(d);
    }
  }

  /** The dates are ordered as the day numbers are. */
  lemma CivilOrder(a: int, b: int)
    ensures Before(CivilOf(b), CivilOf(a)) <==> b < a
  {
    hide CivilOf, Ordinal;
    CivilIsCalendarDay(a);
    CivilIsCalendarDay(b);
    if Before(CivilOf(b), CivilOf(a)) {
      OrdinalIsMonotone(CivilOf(b), CivilOf(a));
    } else if CivilOf(a) != CivilOf(b) {
      OrdinalIsMonotone(CivilOf(a), CivilOf(b));
    }
  }
}
