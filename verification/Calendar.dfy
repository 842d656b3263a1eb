/** Day numbers and dates: the Gregorian calendar as a plain sum of year and month lengths, and the
    closed formula that inverts it. */
module Calendar {

  datatype Date = Date(year: int, month: int, day: int)

  // ----- the calendar -----

  predicate Leap(y: int) {
    y % 4 == 0 && (y % 100 != 0 || y % 400 == 0)
  }

  function YearLength(y: int): int {
    if Leap(y) then 366 else 365
  }

  function MonthLength(y: int, m: int): int {
    if m == 2 then (if Leap(y) then 29 else 28)
    else if m == 4 || m == 6 || m == 9 || m == 11 then 30
    else 31
  }

  predicate ValidDate(d: Date) {
    1 <= d.month <= 12 && 1 <= d.day <= MonthLength(d.year, d.month)
  }

  /** Days from 1 January 1970 to 1 January of year `y`. */
  function DaysToYear(y: int): int
    decreases if y >= 1970 then y - 1970 else 1970 - y
  {
    if y == 1970 then 0
    else if y > 1970 then DaysToYear(y - 1) + YearLength(y - 1)
    else DaysToYear(y + 1) - YearLength(y)
  }

  /** Days from the start of the year to the start of month `m`. */
  function DaysToMonth(y: int, m: int): int
    decreases m
  {
    if m <= 1 then 0 else DaysToMonth(y, m - 1) + MonthLength(y, m - 1)
  }

  function DaysFromCivil(d: Date): int {
    DaysToYear(d.year) + DaysToMonth(d.year, d.month) + d.day - 1
  }

  function NextDay(d: Date): Date {
    if d.day < MonthLength(d.year, d.month) then d.(day := d.day + 1)
    else if d.month < 12 then Date(d.year, d.month + 1, 1)
    else Date(d.year + 1, 1, 1)
  }

  // ----- the conversion, as the signer does it -----

  /** Division that drops the remainder, whatever the sign. */
  function TruncDiv(a: int, b: int): int
    requires b > 0
  {
    if a >= 0 then a / b else -((-a) / b)
  }

  const LAST_YEAR: int := 0x7FFF_FFFF
  const FIRST_YEAR: int := -0x8000_0000

  /** The cast to a 32-bit year wraps around. */
  function AsI32(n: int): int {
    (n + 0x8000_0000) % 0x1_0000_0000 - 0x8000_0000
  }

  /** Day of the 400-year era to year of the era. */
  function YearOfEra(doe: int): int {
    DaysScaled(doe) / 365
  }

  function DaysScaled(doe: int): int {
    doe - doe / 1460 + doe / 36524 - doe / 146096
  }

  function EraOf(z: int): int {
    TruncDiv(if z >= 0 then z else z - 146096, 146097)
  }

  /** Day `doy` of the year that starts in March of year `y`. */
  function MarchDate(y: int, doy: int): Date {
    var mp := (5 * doy + 2) / 153;
    var day := doy - (153 * mp + 2) / 5 + 1;
    var month := mp + (if mp < 10 then 3 else -9);
    Date(y + (if month <= 2 then 1 else 0), month, day)
  }

  function DayOfEra(days: int): int {
    days + 719468 - EraOf(days + 719468) * 146097
  }

  /** Year and day of the year, counted from March. */
  function MarchYear(days: int): int {
    YearOfEra(DayOfEra(days)) + EraOf(days + 719468) * 400
  }

  function MarchDay(days: int): int {
    var yoe := YearOfEra(DayOfEra(days));
    DayOfEra(days) - (365 * yoe + yoe / 4 - yoe / 100)
  }

  /** The date before the cast. */
  function WideCivil(days: int): Date {
    MarchDate(MarchYear(days), MarchDay(days))
  }

  function CivilFromDays(days: int): Date {
    var wide := WideCivil(days);
    wide.(year := AsI32(wide.year))
  }

  // ----- years counted from March -----

  /** Days from 1 March of year 0 to 1 March of year `y`. */
  function MarchDays(y: int): int {
    365 * y + y / 4 - y / 100 + y / 400
  }

  lemma Quarter(y: int)
    ensures (y + 1) / 4 == y / 4 + if (y + 1) % 4 == 0 then 1 else 0
  {
  }

  lemma Hundredth(y: int)
    ensures (y + 1) / 100 == y / 100 + if (y + 1) % 100 == 0 then 1 else 0
  {
  }

  lemma FourHundredth(y: int)
    ensures (y + 1) / 400 == y / 400 + if (y + 1) % 400 == 0 then 1 else 0
  {
  }

  lemma Nested(n: int)
    ensures n % 100 == 0 ==> n % 4 == 0
    ensures n % 400 == 0 ==> n % 100 == 0
  {
  }

  /** From one March to the next is the length of the year whose February lies between. */
  lemma MarchStep(y: int)
    ensures MarchDays(y + 1) - MarchDays(y) == YearLength(y + 1)
  {
    Quarter(y);
    Hundredth(y);
    FourHundredth(y);
    Nested(y + 1);
  }

  lemma {:induction false} MarchIsSum(y: int)
    ensures DaysToYear(y) + DaysToMonth(y, 3) == MarchDays(y) - 719468
    decreases if y >= 1970 then y - 1970 else 1970 - y
  {
    FirstMonths(y);
    if y == 1970 {
      assert MarchDays(1970) == 719527;
    } else if y > 1970 {
      MarchIsSum(y - 1);
      MarchStep(y - 1);
      FirstMonths(y - 1);
    } else {
      MarchIsSum(y + 1);
      MarchStep(y);
      FirstMonths(y + 1);
    }
  }

  lemma FirstMonths(y: int)
    ensures DaysToMonth(y, 3) == if Leap(y) then 60 else 59
  {
    assert DaysToMonth(y, 2) == DaysToMonth(y, 1) + MonthLength(y, 1);
  }

  // ----- the year of the era -----

  lemma ScaledStep(doe: int)
    requires 0 <= doe < 146096
    ensures DaysScaled(doe) <= DaysScaled(doe + 1)
    ensures (doe + 1) % 1460 != 0 ==> DaysScaled(doe) < DaysScaled(doe + 1)
  {
    assert (doe + 1) / 1460 == doe / 1460 + if (doe + 1) % 1460 == 0 then 1 else 0;
    assert (doe + 1) / 36524 == doe / 36524 + if (doe + 1) % 36524 == 0 then 1 else 0;
    assert (doe + 1) / 146096 == if doe + 1 == 146096 then 1 else 0;
  }

  lemma {:induction false} ScaledGrows(a: int, b: int)
    requires 0 <= a <= b <= 146096
    ensures DaysScaled(a) <= DaysScaled(b)
    decreases b - a
  {
    if a < b {
      ScaledGrows(a, b - 1);
      ScaledStep(b - 1);
    }
  }

  /** The first day of a year scales to exactly 365 days a year, and the day before to less. */
  lemma ScaledAtYear(y: int)
    requires 0 <= y < 400
    ensures 0 <= MarchDays(y) <= 146096 && DaysScaled(MarchDays(y)) == 365 * y
    ensures y > 0 ==> MarchDays(y) > 0 && DaysScaled(MarchDays(y) - 1) < 365 * y
  {
    var d := MarchDays(y);
    assert d == 1460 * (y / 4) + (365 * (y % 4) + y / 4 - y / 100);
    assert d / 1460 == y / 4 && d % 1460 == 365 * (y % 4) + y / 4 - y / 100;
    assert d == 36524 * (y / 100) + (365 * (y % 100) + (y % 100) / 4);
    assert d / 36524 == y / 100;
    if y > 0 { ScaledStep(d - 1); }
  }

  lemma YearOfEraIsRight(doe: int)
    requires 0 <= doe <= 146096
    ensures var y := YearOfEra(doe); 0 <= y < 400 && MarchDays(y) <= doe < MarchDays(y + 1)
  {
    var y := YearOfEra(doe);
    ScaledGrows(0, doe);
    ScaledGrows(doe, 146096);
    ScaledAtYear(y);
    if doe < MarchDays(y) { ScaledGrows(doe, MarchDays(y) - 1); }
    if y < 399 {
      ScaledAtYear(y + 1);
      if doe >= MarchDays(y + 1) { ScaledGrows(MarchDays(y + 1), doe); }
    }
  }

  // ----- the month of the year -----

  /** Days from March to the `mp`-th month after it. */
  function MarchMonth(mp: int): int {
    (153 * mp + 2) / 5
  }

  lemma MonthIsRight(doy: int)
    requires 0 <= doy <= 365
    ensures var mp :=
      (5 * doy + 2) / 153; 0 <= mp <= 11 && MarchMonth(mp) <= doy && (mp < 11 ==> doy < MarchMonth(mp + 1))
  {
  }

  lemma MonthsFromMarch(y: int, mp: int)
    requires 0 <= mp < 10
    ensures DaysToMonth(y, mp + 3) == DaysToMonth(y, 3) + MarchMonth(mp)
    ensures MarchMonth(mp + 1) - MarchMonth(mp) == MonthLength(y, mp + 3)
    decreases mp
  {
    if mp > 0 { MonthsFromMarch(y, mp - 1); }
  }

  // ----- the conversion is right -----

  lemma EraIsFloor(z: int)
    ensures 0 <= z - EraOf(z) * 146097 < 146097
  {
  }

  lemma MarchOfEra(yoe: int, era: int)
    requires 0 <= yoe <= 400
    ensures MarchDays(yoe + era * 400) == era * 146097 + MarchDays(yoe)
  {
    assert (yoe + era * 400) / 4 == yoe / 4 + era * 100;
    assert (yoe + era * 400) / 100 == yoe / 100 + era * 4;
    assert (yoe + era * 400) / 400 == yoe / 400 + era;
  }

  lemma MarchDateIsRight(y: int, doy: int)
    requires 0 <= doy < YearLength(y + 1)
    ensures ValidDate(MarchDate(y, doy)) && DaysFromCivil(MarchDate(y, doy)) == MarchDays(y) - 719468 + doy
  {
    var mp := (5 * doy + 2) / 153;
    MonthIsRight(doy);
    if mp < 10 {
      MarchIsSum(y);
      MonthsFromMarch(y, mp);
    } else {
      MarchIsSum(y + 1);
      MarchStep(y);
      FirstMonths(y + 1);
      assert DaysToMonth(y + 1, 2) == 31;
    }
  }

  lemma MarchDayIsRight(days: int)
    ensures 0 <= MarchDay(days) < YearLength(MarchYear(days) + 1)
    ensures MarchDays(MarchYear(days)) + MarchDay(days) == days + 719468
  {
    var era, doe := EraOf(days + 719468), DayOfEra(days);
    EraIsFloor(days + 719468);
    YearOfEraIsRight(doe);
    var yoe := YearOfEra(doe);
    MarchOfEra(yoe, era);
    MarchOfEra(yoe + 1, era);
    MarchStep(yoe + era * 400);
  }

  /** Every day number gives a valid date that the plain sum takes back to it. */
  lemma WideIsRight(days: int)
    ensures ValidDate(WideCivil(days)) && DaysFromCivil(WideCivil(days)) == days
  {
    MarchDayIsRight(days);
    MarchDateIsRight(MarchYear(days), MarchDay(days));
  }

  // ----- dates and day numbers correspond -----

  lemma {:induction false} YearsGrow(a: int, b: int)
    requires a <= b
    ensures DaysToYear(a) + 365 * (b - a) <= DaysToYear(b)
    decreases b - a
  {
    if a < b { YearsGrow(a, b - 1); }
  }

  lemma {:induction false} MonthsGrow(y: int, a: int, b: int)
    requires 1 <= a < b <= 13
    ensures DaysToMonth(y, a) + MonthLength(y, a) <= DaysToMonth(y, b)
    decreases b - a
  {
    if a < b - 1 { MonthsGrow(y, a, b - 1); }
  }

  lemma WholeYear(y: int)
    ensures DaysToMonth(y, 13) == YearLength(y)
  {
    FirstMonths(y);
    MonthsFromMarch(y, 9);
    assert DaysToMonth(y, 13) == DaysToMonth(y, 12) + MonthLength(y, 12);
  }

  /** A valid date lies in its year. */
  lemma InItsYear(d: Date)
    requires ValidDate(d)
    ensures DaysToYear(d.year) <= DaysFromCivil(d) < DaysToYear(d.year + 1)
  {
    WholeYear(d.year);
    MonthsGrow(d.year, d.month, 13);
    if d.month > 1 { MonthsGrow(d.year, 1, d.month); }
  }

  /** No two dates have the same day number. */
  lemma DatesAreDistinct(d: Date, e: Date)
    requires ValidDate(d) && ValidDate(e) && DaysFromCivil(d) == DaysFromCivil(e)
    ensures d == e
  {
    InItsYear(d);
    InItsYear(e);
    if d.year < e.year { YearsGrow(d.year + 1, e.year); }
    if e.year < d.year { YearsGrow(e.year + 1, d.year); }
    if d.month < e.month { MonthsGrow(d.year, d.month, e.month); }
    if e.month < d.month { MonthsGrow(d.year, e.month, d.month); }
  }

  lemma NextDayIsNext(d: Date)
    requires ValidDate(d)
    ensures ValidDate(NextDay(d)) && DaysFromCivil(NextDay(d)) == DaysFromCivil(d) + 1
  {
    WholeYear(d.year);
  }

  // ----- with the 32-bit year -----

  /** The days whose year fits the cast. */
  predicate YearFits(days: int) {
    DaysToYear(FIRST_YEAR) <= days < DaysToYear(LAST_YEAR + 1)
  }

  lemma FitsIffYear(d: Date)
    requires ValidDate(d)
    ensures YearFits(DaysFromCivil(d)) <==> FIRST_YEAR <= d.year <= LAST_YEAR
  {
    InItsYear(d);
    if d.year < FIRST_YEAR { YearsGrow(d.year + 1, FIRST_YEAR); }
    if FIRST_YEAR <= d.year { YearsGrow(FIRST_YEAR, d.year); }
    if d.year <= LAST_YEAR { YearsGrow(d.year + 1, LAST_YEAR + 1); }
    if LAST_YEAR < d.year { YearsGrow(LAST_YEAR + 1, d.year); }
  }

  lemma CastKeepsDate(wide: Date)
    requires ValidDate(wide)
    ensures var cast := wide.(year := AsI32(wide.year));
            YearFits(DaysFromCivil(wide)) <==> ValidDate(cast) && DaysFromCivil(cast) == DaysFromCivil(wide)
  {
    var cast := wide.(year := AsI32(wide.year));
    FitsIffYear(wide);
    assert FIRST_YEAR <= cast.year <= LAST_YEAR;
    if ValidDate(cast) && DaysFromCivil(cast) == DaysFromCivil(wide) { DatesAreDistinct(cast, wide); }
  }

  /** The conversion inverts the calendar exactly for the days whose year fits. */
  lemma ConversionIsRight(days: int)
    ensures YearFits(days) <==> ValidDate(CivilFromDays(days)) && DaysFromCivil(CivilFromDays(days)) == days
  {
    WideIsRight(days);
    CastKeepsDate(WideCivil(days));
  }

  /** The next day number gives the next date. */
  lemma NextDayNextDate(days: int)
    requires YearFits(days) && YearFits(days + 1)
    ensures CivilFromDays(days + 1) == NextDay(CivilFromDays(days))
  {
    ConversionIsRight(days);
    ConversionIsRight(days + 1);
    NextDayIsNext(CivilFromDays(days));
    DatesAreDistinct(CivilFromDays(days + 1), NextDay(CivilFromDays(days)));
  }

  /** Every date whose year fits is the conversion of its day number. */
  lemma EveryDateIsReached(d: Date)
    requires ValidDate(d) && FIRST_YEAR <= d.year <= LAST_YEAR
    ensures CivilFromDays(DaysFromCivil(d)) == d
  {
    FitsIffYear(d);
    ConversionIsRight(DaysFromCivil(d));
    DatesAreDistinct(CivilFromDays(DaysFromCivil(d)), d);
  }

  /** The count starts on 1 January 1970; every other day follows from its neighbours. */
  lemma FirstDay()
    ensures CivilFromDays(0) == Date(1970, 1, 1)
  {
    assert DaysFromCivil(Date(1970, 1, 1)) == 0;
    EveryDateIsReached(Date(1970, 1, 1));
  }

  /** Leap years, the lengths of the months, and the order of the days. */
  lemma CalendarRules(y: int)
    ensures MonthLength(y, 2) == if y % 400 == 0 || (y % 4 == 0 && y % 100 != 0) then 29 else 28
    ensures MonthLength(y, 1) == MonthLength(y, 3) == MonthLength(y, 5) == MonthLength(y, 7) == 31
    ensures MonthLength(y, 8) == MonthLength(y, 10) == MonthLength(y, 12) == 31
    ensures MonthLength(y, 4) == MonthLength(y, 6) == MonthLength(y, 9) == MonthLength(y, 11) == 30
    ensures NextDay(Date(y, 12, 31)) == Date(y + 1, 1, 1) && NextDay(Date(y, 1, 1)) == Date(y, 1, 2)
    ensures NextDay(Date(y, 2, 28)) == if MonthLength(y, 2) == 29 then Date(y, 2, 29) else Date(y, 3, 1)
  {
  }
}
