/** Day numbers of proleptic Gregorian dates (section 3.2.1 of ISO 8601:2004), as
    computed by nmea_days_from_civil and nmea_civil_from_days. */
module Civil {

  datatype Date = Date(year: int, month: int, day: int)

  /** Integer division as C has it: towards zero. */
  function Quot(a: int, b: int): int
    requires b > 0
  {
    if a >= 0 then a / b else -((-a) / b)
  }

  /** Days from 1970-01-01. */
  function DaysFromCivil(t: Date): int {
    var y := if t.month <= 2 then t.year - 1 else t.year;
    var era := Quot(if y >= 0 then y else y - 399, 400);
    var yoe := y - era * 400;
    var doy := Quot(153 * (t.month + (if t.month > 2 then -3 else 9)) + 2, 5) + t.day - 1;
    var doe := yoe * 365 + Quot(yoe, 4) - Quot(yoe, 100) + doy;
    era * 146097 + doe - 719468
  }

  function CivilFromDays(days: int): Date {
    var z := days + 719468;
    var era := Quot(if z >= 0 then z else z - 146096, 146097);
    var doe := z - era * 146097;
    var yoe := Quot(doe - Quot(doe, 1460) + Quot(doe, 36524) - Quot(doe, 146096), 365);
    var doy := doe - (365 * yoe + Quot(yoe, 4) - Quot(yoe, 100));
    var mp := Quot(5 * doy + 2, 153);
    var day := doy - Quot(153 * mp + 2, 5) + 1;
    var month := mp + (if mp < 10 then 3 else -9);
    Date(yoe + era * 400 + (if month <= 2 then 1 else 0), month, day)
  }

  // ---------------------------------------------------------- the calendar

  predicate Leap(year: int) {
    year % 4 == 0 && (year % 100 != 0 || year % 400 == 0)
  }

  function MonthLength(year: int, month: int): int {
    if month == 2 then (if Leap(year) then 29 else 28)
    else if month == 4 || month == 6 || month == 9 || month == 11 then 30
    else 31
  }

  predicate Valid(t: Date) {
    1 <= t.month <= 12 && 1 <= t.day <= MonthLength(t.year, t.month)
  }

  /** The day after t. */
  function Tomorrow(t: Date): Date {
    if t.day < MonthLength(t.year, t.month) then t.(day := t.day + 1)
    else if t.month < 12 then Date(t.year, t.month + 1, 1)
    else Date(t.year + 1, 1, 1)
  }

  // ------------------------------------------------ years that start in March

  /** Day-of-year doy exists in year yoe of an era; years start on 1 March. */
  predicate InYear(yoe: int, doy: int) {
    0 <= yoe < 400 && 0 <= doy <= (if Leap(yoe + 1) then 365 else 364)
  }

  function DayOfEra(yoe: int, doy: int): int {
    yoe * 365 + yoe / 4 - yoe / 100 + doy
  }

  function YearOfEra(doe: int): int {
    (doe - doe / 1460 + doe / 36524 - doe / 146096) / 365
  }

  /** The place of a year in its era: century c, four-year cycle q of the century, year s of the cycle. */
  predicate Split(yoe: int, c: int, q: int, s: int) {
    0 <= c < 4 && 0 <= q < 25 && 0 <= s < 4 && yoe == 100 * c + 4 * q + s
  }

  lemma SplitYear(yoe: int) returns (c: int, q: int, s: int)
    requires 0 <= yoe < 400
    ensures Split(yoe, c, q, s)
  {
    c := yoe / 100;
    q := yoe % 100 / 4;
    s := yoe % 4;
  }

  lemma SplitFacts(yoe: int, c: int, q: int, s: int)
    requires Split(yoe, c, q, s)
    ensures yoe / 100 == c && yoe / 4 == 25 * c + q
    ensures Leap(yoe + 1) <==> s == 3 && (q != 24 || c == 3)
  {
  }

  /** A day of an era is 36524 days per century, 1461 per cycle and 365 per year. */
  lemma DayOfEraSplit(yoe: int, doy: int, c: int, q: int, s: int)
    requires InYear(yoe, doy) && Split(yoe, c, q, s)
    ensures DayOfEra(yoe, doy) == 36524 * c + 1461 * q + 365 * s + doy
    ensures doy == 365 ==> s == 3 && (q != 24 || c == 3)
  {
    SplitFacts(yoe, c, q, s);
  }

  lemma YearRecovered(yoe: int, doy: int)
    requires InYear(yoe, doy)
    ensures 0 <= DayOfEra(yoe, doy) <= 146096
    ensures YearOfEra(DayOfEra(yoe, doy)) == yoe
  {
    var c, q, s := SplitYear(yoe);
    DayOfEraSplit(yoe, doy, c, q, s);
    hide InYear, DayOfEra, Leap;
    var doe := DayOfEra(yoe, doy);
    Centuries(doe, c, 1461 * q + 365 * s + doy);
    var t := if 24 * c + q + 365 * s + doy >= 1460 then 1 else 0;
    Cycles(doe, c, q, 365 * s + doy, t);
    assert doe - doe / 1460 + doe / 36524 - doe / 146096 == 365 * yoe + doy - t;
    Years(365 * yoe + doy - t, yoe, doy - t);
  }

  lemma Centuries(doe: int, c: int, e: int)
    requires 0 <= c < 4 && doe == 36524 * c + e && 0 <= e <= 36524 && (e == 36524 ==> c == 3)
    ensures doe / 36524 - doe / 146096 == c
  {
  }

  lemma Cycles(doe: int, c: int, q: int, f: int, t: int)
    requires 0 <= c < 4 && 0 <= q < 25 && 0 <= f <= 1460 && doe == 36524 * c + 1461 * q + f
    requires t == if 24 * c + q + f >= 1460 then 1 else 0
    ensures doe / 1460 == 25 * c + q + t
  {
    assert doe == 1460 * (25 * c + q) + (24 * c + q + f);
  }

  lemma Years(n: int, yoe: int, rest: int)
    requires n == 365 * yoe + rest && 0 <= rest < 365
    ensures n / 365 == yoe
  {
  }

  /** Every day of an era lies in some year of it. */
  lemma YearExists(doe: int) returns (yoe: int, doy: int)
    requires 0 <= doe <= 146096
    ensures InYear(yoe, doy) && DayOfEra(yoe, doy) == doe
  {
    var c := if doe == 146096 then 3 else doe / 36524;
    var e := doe - 36524 * c;
    var q := e / 1461;
    var f := e - 1461 * q;
    var s := if f == 1460 then 3 else f / 365;
    yoe, doy := 100 * c + 4 * q + s, f - 365 * s;
    assert 0 <= e <= 36524 && (e == 36524 ==> c == 3);
    assert Split(yoe, c, q, s);
    SplitFacts(yoe, c, q, s);
  }

  // ------------------------------------------------------------------ months

  /** Length of month mp of a year that starts in March. */
  function MarchLength(mp: int, leap: bool): int {
    if mp == 11 then (if leap then 29 else 28)
    else if mp == 1 || mp == 3 || mp == 6 || mp == 8 then 30 else 31
  }

  function MonthStart(mp: int): int {
    (153 * mp + 2) / 5
  }

  lemma MonthRecovered(mp: int, day: int, leap: bool)
    requires 0 <= mp <= 11 && 1 <= day <= MarchLength(mp, leap)
    ensures var doy := MonthStart(mp) + day - 1;
      (5 * doy + 2) / 153 == mp && 0 <= doy <= (if leap then 365 else 364)
  {
  }

  lemma MonthExists(doy: int, leap: bool)
    requires 0 <= doy <= (if leap then 365 else 364)
    ensures var mp := (5 * doy + 2) / 153;
      0 <= mp <= 11 && 1 <= doy - MonthStart(mp) + 1 <= MarchLength(mp, leap)
  {
  }

  // ------------------------------------------------------------ the functions

  /** Years counted from March, and months of such a year. */
  function MarchYear(t: Date): int {
    if t.month <= 2 then t.year - 1 else t.year
  }

  function MarchMonth(month: int): int {
    if month > 2 then month - 3 else month + 9
  }

  lemma FloorQuot(a: int)
    ensures Quot(if a >= 0 then a else a - 399, 400) == a / 400
    ensures Quot(if a >= 0 then a else a - 146096, 146097) == a / 146097
  {
  }

  lemma QuotFloor(a: int, b: int)
    requires a >= 0 && b > 0
    ensures Quot(a, b) == a / b
  {
  }

  lemma DaysForm(t: Date)
    requires 1 <= t.month <= 12
    ensures var y := MarchYear(t);
      DaysFromCivil(t) ==
      y / 400 * 146097 + DayOfEra(y % 400, MonthStart(MarchMonth(t.month)) + t.day - 1) - 719468
  {
    FloorQuot(MarchYear(t));
  }

  /** The date with the given era, March year, month and day. */
  function DateOf(era: int, yoe: int, mp: int, day: int): Date {
    var month := if mp < 10 then mp + 3 else mp - 9;
    Date(yoe + era * 400 + (if month <= 2 then 1 else 0), month, day)
  }

  lemma Euclid(era: int, doe: int)
    requires 0 <= doe < 146097
    ensures (era * 146097 + doe) / 146097 == era
  {
  }

  lemma YearNumerator(doe: int)
    requires 0 <= doe <= 146096
    ensures Quot(doe - Quot(doe, 1460) + Quot(doe, 36524) - Quot(doe, 146096), 365) == YearOfEra(doe)
  {
  }

  /** CivilFromDays, given what its intermediate quotients are. */
  lemma CivilSteps(days: int, era: int, doe: int, yoe: int, doy: int, mp: int)
    requires days + 719468 == era * 146097 + doe && 0 <= doe <= 146096
    requires YearOfEra(doe) == yoe >= 0
    requires doy == doe - DayOfEra(yoe, 0) >= 0
    requires mp == (5 * doy + 2) / 153
    ensures CivilFromDays(days) == DateOf(era, yoe, mp, doy - MonthStart(mp) + 1)
  {
    hide YearOfEra, Quot, MonthStart, DayOfEra;
    FloorQuot(days + 719468);
    Euclid(era, doe);
    YearNumerator(doe);
    LaterQuotients(yoe, doy, mp);
  }

  lemma LaterQuotients(yoe: int, doy: int, mp: int)
    requires yoe >= 0 && doy >= 0 && mp >= 0
    ensures 365 * yoe + Quot(yoe, 4) - Quot(yoe, 100) == DayOfEra(yoe, 0)
    ensures Quot(5 * doy + 2, 153) == (5 * doy + 2) / 153
    ensures Quot(153 * mp + 2, 5) == MonthStart(mp)
  {
    hide Quot;
    QuotFloor(yoe, 4);
    QuotFloor(yoe, 100);
    QuotFloor(5 * doy + 2, 153);
    QuotFloor(153 * mp + 2, 5);
  }

  lemma DayOfEraShift(yoe: int, doy: int)
    ensures DayOfEra(yoe, doy) == DayOfEra(yoe, 0) + doy
  {
  }

  lemma CivilForm(era: int, yoe: int, mp: int, day: int)
    requires 0 <= yoe < 400 && 0 <= mp <= 11 && 1 <= day <= MarchLength(mp, Leap(yoe + 1))
    ensures CivilFromDays(era * 146097 + DayOfEra(yoe, MonthStart(mp) + day - 1) - 719468) == DateOf(era, yoe, mp, day)
  {
    hide Leap, YearOfEra, CivilFromDays, MonthStart, MarchLength, DayOfEra, DateOf;
    var doy := MonthStart(mp) + day - 1;
    var doe := DayOfEra(yoe, doy);
    MonthRecovered(mp, day, Leap(yoe + 1));
    YearRecovered(yoe, doy);
    DayOfEraShift(yoe, doy);
    CivilSteps(era * 146097 + doe - 719468, era, doe, yoe, doy, mp);
  }

  lemma DateOfParts(t: Date)
    requires Valid(t)
    ensures var y, mp := MarchYear(t), MarchMonth(t.month);
      && t == DateOf(y / 400, y % 400, mp, t.day)
      && 0 <= mp <= 11 && t.day <= MarchLength(mp, Leap(y % 400 + 1))
  {
    LeapPeriod(MarchYear(t) + 1);
  }

  lemma LeapPeriod(year: int)
    ensures Leap(year) == Leap((year - 1) % 400 + 1)
  {
    var k, r := (year - 1) / 400, (year - 1) % 400 + 1;
    assert year == 400 * k + r;
    Period400(k, r);
    Period100(4 * k, r);
    Period4(100 * k, r);
  }

  lemma Period400(k: int, r: int)
    ensures (400 * k + r) % 400 == r % 400
  {
  }

  lemma Period100(k: int, r: int)
    ensures (100 * k + r) % 100 == r % 100
  {
  }

  lemma Period4(k: int, r: int)
    ensures (4 * k + r) % 4 == r % 4
  {
  }

  // ------------------------------------------------------------ main results

  /** A date is recovered from its day number, in every year, negative ones included. */
  lemma DateRoundTrip(t: Date)
    requires Valid(t)
    ensures CivilFromDays(DaysFromCivil(t)) == t
  {
    hide CivilFromDays, DaysFromCivil, DateOf, Leap, MarchLength;
    DaysForm(t);
    DateOfParts(t);
    CivilForm(MarchYear(t) / 400, MarchYear(t) % 400, MarchMonth(t.month), t.day);
  }

  /** A day number is recovered from its date, which is a date of the calendar. */
  lemma DaysRoundTrip(days: int)
    ensures Valid(CivilFromDays(days))
    ensures DaysFromCivil(CivilFromDays(days)) == days
  {
    hide CivilFromDays, DaysFromCivil, Leap, DateOf;
    var z := days + 719468;
    var era, doe := z / 146097, z % 146097;
    var yoe, doy := YearExists(doe);
    var mp := (5 * doy + 2) / 153;
    var day := doy - MonthStart(mp) + 1;
    MonthExists(doy, Leap(yoe + 1));
    CivilForm(era, yoe, mp, day);
    var t := DateOf(era, yoe, mp, day);
    assert t == CivilFromDays(days);
    DateOfValid(era, yoe, mp, day);
    DaysForm(t);
  }

  lemma DateOfValid(era: int, yoe: int, mp: int, day: int)
    requires 0 <= yoe < 400 && 0 <= mp <= 11 && 1 <= day <= MarchLength(mp, Leap(yoe + 1))
    ensures var t := DateOf(era, yoe, mp, day);
      && Valid(t) && MarchYear(t) == yoe + era * 400 && MarchMonth(t.month) == mp && t.day == day
      && MarchYear(t) / 400 == era && MarchYear(t) % 400 == yoe
  {
    hide Leap;
    EraOf(era, yoe);
    LeapPeriod(yoe + era * 400 + 1);
  }

  /** Within a March year, months follow each other without gap. */
  lemma NextMonth(mp: int, leap: bool)
    requires 0 <= mp < 11
    ensures MonthStart(mp + 1) == MonthStart(mp) + MarchLength(mp, leap)
  {
  }

  lemma EraOf(era: int, yoe: int)
    requires 0 <= yoe < 400
    ensures (yoe + era * 400) / 400 == era && (yoe + era * 400) % 400 == yoe
  {
  }

  lemma EraLength()
    ensures Leap(400) && DayOfEra(399, 366) == 146097 && DayOfEra(0, 0) == 0
  {
  }

  lemma LeapYearLength(yoe: int)
    requires 0 <= yoe < 399
    ensures DayOfEra(yoe + 1, 0) == DayOfEra(yoe, if Leap(yoe + 1) then 366 else 365)
  {
    var c, q, s := SplitYear(yoe);
    SplitFacts(yoe, c, q, s);
    var c', q', s' := SplitYear(yoe + 1);
    SplitFacts(yoe + 1, c', q', s');
  }

  /** The last day of February is followed by the first day of the next March year. */
  lemma NextMarch(y: int)
    ensures y / 400 * 146097 + DayOfEra(y % 400, MonthStart(11) + MarchLength(11, Leap(y + 1))) ==
            (y + 1) / 400 * 146097 + DayOfEra((y + 1) % 400, 0)
  {
    hide Leap, DayOfEra;
    var era, yoe := y / 400, y % 400;
    LeapPeriod(y + 1);
    if yoe < 399 {
      EraOf(era, yoe + 1);
      LeapYearLength(yoe);
    } else {
      EraOf(era + 1, 0);
      EraLength();
    }
  }

  /** The day after a date has the next day number. */
  lemma TomorrowIsNext(t: Date)
    requires Valid(t)
    ensures Valid(Tomorrow(t)) && DaysFromCivil(Tomorrow(t)) == DaysFromCivil(t) + 1
  {
    hide DaysFromCivil, DayOfEra, MonthStart, Leap;
    DaysForm(t);
    DaysForm(Tomorrow(t));
    var y, mp := MarchYear(t), MarchMonth(t.month);
    DayOfEraShift(y % 400, MonthStart(mp) + t.day - 1);
    if t.day < MonthLength(t.year, t.month) {
      DayOfEraShift(y % 400, MonthStart(mp) + t.day);
    } else if mp < 11 {
      NextMonth(mp, Leap(y + 1));
      DayOfEraShift(y % 400, MonthStart(mp + 1));
    } else {
      NextMarch(y);
      FirstMonth();
      DayOfEraShift(y % 400, MonthStart(11) + MarchLength(11, Leap(y + 1)));
    }
  }

  lemma FirstMonth()
    ensures MonthStart(0) == 0
  {
  }

  /** Day number n is n days after 1970-01-01. */
  lemma {:induction false} CountsDays(n: nat)
    ensures DaysFromCivil(After(n)) == n && Valid(After(n))
  {
    if n > 0 {
      CountsDays(n - 1);
      TomorrowIsNext(After(n - 1));
    }
  }

  function After(n: nat): Date {
    if n == 0 then Date(1970, 1, 1) else Tomorrow(After(n - 1))
  }
}
