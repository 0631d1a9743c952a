/** The proleptic Gregorian calendar at a fixed offset from UTC, as the Date objects of ECMAScript count
    it: days from 1970, months by index, and a mutable date whose setters carry over. */
module Calendar {

  const DAY := 24 * 60

  /* ---------- days and months ---------- */

  predicate Leap(year: int) {
    (year % 4 == 0 && year % 100 != 0) || year % 400 == 0
  }

  /** Months are counted from January 1970. */
  function MonthLength(index: int): int {
    match index % 12
    case 1 => if Leap(YearOfMonth(index)) then 29 else 28
    case 3 => 30
    case 5 => 30
    case 8 => 30
    case 10 => 30
    case _ => 31
  }

  function YearOfMonth(index: int): int {
    1970 + index / 12
  }

  /** The first day of month `index`: the lengths of the months between it and January 1970. */
  function MonthStart(index: int): int
    decreases if index < 0 then -index else index
  {
    if index == 0 then 0
    else if index > 0 then MonthStart(index - 1) + MonthLength(index - 1)
    else MonthStart(index + 1) - MonthLength(index)
  }

  /** `DayFromYear` of section 21.4.1.6 of the ECMAScript specification. */
  function DayFromYear(year: int): int {
    365 * (year - 1970) + (year - 1969) / 4 - (year - 1901) / 100 + (year - 1601) / 400
  }

  lemma QuotientSteps(n: int, d: int)
    requires d == 4 || d == 100 || d == 400
    ensures (n + 1) / d - n / d == if (n + 1) % d == 0 then 1 else 0
  {
  }

  lemma LeapByQuotients(year: int)
    ensures (year - 1968) % 4 == 0 <==> year % 4 == 0
    ensures (year - 1900) % 100 == 0 <==> year % 100 == 0
    ensures (year - 1600) % 400 == 0 <==> year % 400 == 0
  {
  }

  lemma CenturiesAreFourths(year: int)
    ensures year % 400 == 0 ==> year % 100 == 0
    ensures year % 100 == 0 ==> year % 4 == 0
  {
  }

  lemma YearLength(year: int)
    ensures DayFromYear(year + 1) - DayFromYear(year) == if Leap(year) then 366 else 365
  {
    QuotientSteps(year - 1969, 4);
    QuotientSteps(year - 1901, 100);
    QuotientSteps(year - 1601, 400);
    LeapByQuotients(year);
    CenturiesAreFourths(year);
  }

  /** The first `n` months of a year, by their lengths. */
  function MonthsLong(january: int, n: nat): int {
    if n == 0 then 0 else MonthsLong(january, n - 1) + MonthLength(january + n - 1)
  }

  lemma {:induction false} MonthsAddUp(january: int, n: nat)
    ensures MonthStart(january + n) == MonthStart(january) + MonthsLong(january, n)
  {
    if n > 0 {
      MonthsAddUp(january, n - 1);
    }
  }

  /** Days of a common year before its month 0 to 12. */
  const BEFORE_MONTH: seq<int> := [0, 31, 59, 90, 120, 151, 181, 212, 243, 273, 304, 334, 365]

  lemma {:induction false} YearAddsUp(january: int, n: nat)
    requires january % 12 == 0 && n <= 12
    ensures MonthsLong(january, n) == BEFORE_MONTH[n] + if n >= 2 && Leap(YearOfMonth(january)) then 1 else 0
  {
    if n > 0 {
      YearAddsUp(january, n - 1);
      assert (january + n - 1) % 12 == n - 1 && YearOfMonth(january + n - 1) == YearOfMonth(january);
    }
  }

  lemma YearLong(january: int)
    requires january % 12 == 0
    ensures MonthsLong(january, 12) == if Leap(YearOfMonth(january)) then 366 else 365
  {
    YearAddsUp(january, 12);
  }

  lemma OneYear(january: int)
    requires january % 12 == 0
    ensures MonthStart(january + 12) == MonthStart(january) + if Leap(YearOfMonth(january)) then 366 else 365
  {
    YearLong(january);
    MonthsAddUp(january, 12);
  }

  /** Counting month by month comes to the closed formula of the specification. */
  lemma {:induction false} JanuaryIsDayFromYear(year: int)
    ensures MonthStart(12 * (year - 1970)) == DayFromYear(year)
    decreases if year < 1970 then 1970 - year else year - 1970
  {
    if year > 1970 {
      JanuaryIsDayFromYear(year - 1);
      OneYear(12 * (year - 1 - 1970));
      YearLength(year - 1);
    } else if year < 1970 {
      JanuaryIsDayFromYear(year + 1);
      OneYear(12 * (year - 1970));
      YearLength(year);
    }
  }

  lemma {:induction false} MonthsAscend(i: int, j: int)
    requires i <= j
    ensures MonthStart(i) + 28 * (j - i) <= MonthStart(j)
    decreases j - i
  {
    if i < j {
      MonthsAscend(i + 1, j);
    }
  }

  /** The month that holds `day`, searched from `guess`. */
  function MonthFrom(day: int, guess: int): (index: int)
    ensures MonthStart(index) <= day < MonthStart(index + 1)
    decreases day < MonthStart(guess), if day < MonthStart(guess) then MonthStart(guess) - day else day - MonthStart(guess)
  {
    if day < MonthStart(guess) then MonthFrom(day, guess - 1)
    else if MonthStart(guess + 1) <= day then MonthFrom(day, guess + 1)
    else guess
  }

  function MonthOf(day: int): (index: int)
    ensures MonthStart(index) <= day < MonthStart(index + 1)
  {
    MonthFrom(day, 0)
  }

  /** No day lies in two months. */
  lemma MonthIsUnique(day: int, index: int)
    requires MonthStart(index) <= day < MonthStart(index + 1)
    ensures MonthOf(day) == index
  {
    var found := MonthOf(day);
    if found < index {
      MonthsAscend(found + 1, index);
    } else if index < found {
      MonthsAscend(index + 1, found);
    }
  }

  /* ---------- what repeats, and what falls on what ---------- */

  const CYCLE_MONTHS := 400 * 12

  /** Divisible by seven, so weekdays repeat with the dates. */
  const CYCLE := 146097

  lemma NextMonth(index: int)
    ensures MonthStart(index + 1) == MonthStart(index) + MonthLength(index)
  {
  }

  lemma MonthLengthRepeats(index: int)
    ensures MonthLength(index + CYCLE_MONTHS) == MonthLength(index)
  {
    IndexRepeats(index);
    LeapRepeats(YearOfMonth(index));
  }

  lemma IndexRepeats(index: int)
    ensures (index + CYCLE_MONTHS) % 12 == index % 12 && YearOfMonth(index + CYCLE_MONTHS) == YearOfMonth(index) + 400
  {
  }

  lemma RemaindersOfYears(year: int)
    ensures (year + 400) % 4 == year % 4
    ensures (year + 400) % 100 == year % 100
    ensures (year + 400) % 400 == year % 400
  {
    assert year + 400 == 4 * (year / 4 + 100) + year % 4;
    assert year + 400 == 100 * (year / 100 + 4) + year % 100;
    assert year + 400 == 400 * (year / 400 + 1) + year % 400;
  }

  lemma LeapRepeats(year: int)
    ensures Leap(year + 400) == Leap(year)
  {
    RemaindersOfYears(year);
  }

  lemma CycleMovesOn(index: int)
    ensures MonthStart(index + 1 + CYCLE_MONTHS) - MonthStart(index + 1)
         == MonthStart(index + CYCLE_MONTHS) - MonthStart(index)
  {
    NextMonth(index);
    NextMonth(index + CYCLE_MONTHS);
    MonthLengthRepeats(index);
    assert index + CYCLE_MONTHS + 1 == index + 1 + CYCLE_MONTHS;
  }

  /** 400 years are 146097 days, wherever they begin. */
  lemma {:induction false} CycleLength(index: int)
    ensures MonthStart(index + CYCLE_MONTHS) == MonthStart(index) + CYCLE
    decreases if index < 0 then -index else index
  {
    if index == 0 {
      JanuaryIsDayFromYear(2370);
    } else if index > 0 {
      CycleLength(index - 1);
      CycleMovesOn(index - 1);
    } else {
      CycleLength(index + 1);
      CycleMovesOn(index);
    }
  }

  /** The date of a day: its month of the year, its day of the month, and its day of the week. */
  datatype Date = Date(month: int, day: int, weekday: int)

  function DateOf(day: int): Date {
    Date(MonthOf(day) % 12 + 1, day - MonthStart(MonthOf(day)) + 1, (day + 4) % 7)
  }

  lemma DateInMonth(day: int, index: int)
    requires MonthStart(index) <= day < MonthStart(index + 1)
    ensures DateOf(day) == Date(index % 12 + 1, day - MonthStart(index) + 1, (day + 4) % 7)
  {
    MonthIsUnique(day, index);
  }

  lemma MonthComesAgain(day: int, index: int)
    requires MonthStart(index) <= day < MonthStart(index + 1)
    ensures MonthStart(index + CYCLE_MONTHS) == MonthStart(index) + CYCLE
    ensures MonthStart(index + CYCLE_MONTHS) <= day + CYCLE < MonthStart(index + CYCLE_MONTHS + 1)
  {
    CycleLength(index);
    CycleLength(index + 1);
    assert index + 1 + CYCLE_MONTHS == index + CYCLE_MONTHS + 1;
  }

  lemma RemaindersRepeat(index: int, day: int)
    ensures (index + CYCLE_MONTHS) % 12 == index % 12
    ensures (day + CYCLE + 4) % 7 == (day + 4) % 7
  {
  }

  lemma DateRepeats(day: int)
    ensures DateOf(day + CYCLE) == DateOf(day)
  {
    var index := MonthOf(day);
    MonthComesAgain(day, index);
    DateInMonth(day, index);
    DateInMonth(day + CYCLE, index + CYCLE_MONTHS);
    RemaindersRepeat(index, day);
  }

  lemma {:induction false} DatesRepeat(day: int, cycles: nat)
    ensures DateOf(day + CYCLE * cycles) == DateOf(day)
  {
    if cycles > 0 {
      DatesRepeat(day, cycles - 1);
      DateRepeats(day + CYCLE * (cycles - 1));
      assert day + CYCLE * (cycles - 1) + CYCLE == day + CYCLE * cycles;
    }
  }

  /** Every date that occurs, occurs on or after any given day, less than 400 years later. */
  lemma DateComesAgain(day: int, first: int) returns (again: int)
    ensures first <= again < first + CYCLE && DateOf(again) == DateOf(day)
  {
    var cycles := (day - first) / CYCLE;
    again := day - CYCLE * cycles;
    assert again == first + (day - first) % CYCLE;
    if cycles >= 0 {
      DatesRepeat(again, cycles);
    } else {
      DatesRepeat(day, -cycles);
      assert day + CYCLE * -cycles == again;
    }
  }

  /** Days of a month when it is longest. */
  const LONGEST: seq<int> := [31, 29, 31, 30, 31, 30, 31, 31, 30, 31, 30, 31]

  lemma MonthLengths(index: int)
    ensures MonthLength(index) <= LONGEST[index % 12]
    ensures Leap(YearOfMonth(index)) ==> MonthLength(index) == LONGEST[index % 12]
  {
  }

  lemma LeapYearIndices(k: nat, month: nat)
    requires k < 7 && month < 12
    ensures (24 + 48 * k) % 12 == 0 && YearOfMonth(24 + 48 * k) == 1972 + 4 * k && Leap(1972 + 4 * k)
    ensures (24 + 48 * k + month) % 12 == month && YearOfMonth(24 + 48 * k + month) == 1972 + 4 * k
  {
  }

  /** A month of one of the seven leap years from 1972 to 1996. */
  lemma LeapMonthStart(k: nat, month: nat)
    requires k < 7 && month < 12
    ensures MonthStart(24 + 48 * k + month) == 730 + 1461 * k + BEFORE_MONTH[month] + if month >= 2 then 1 else 0
  {
    LeapYearIndices(k, month);
    LeapJanuary(k);
    JanuaryIsDayFromYear(1972 + 4 * k);
    assert 12 * (1972 + 4 * k - 1970) == 24 + 48 * k;
    MonthsAddUp(24 + 48 * k, month);
    YearAddsUp(24 + 48 * k, month);
  }

  lemma LeapJanuary(k: nat)
    requires k < 7
    ensures DayFromYear(1972 + 4 * k) == 730 + 1461 * k
  {
    assert (3 + 4 * k) / 4 == k && (71 + 4 * k) / 100 == 0 && (371 + 4 * k) / 400 == 0;
  }

  /** From leap year to leap year a date moves on by five days of the week: seven of them meet all seven. */
  lemma WeekdayIsMet(base: int, weekday: int) returns (k: nat)
    requires 0 <= weekday < 7
    ensures k < 7 && (base + 1461 * k) % 7 == weekday
  {
    k := (3 * (weekday - base)) % 7;
    var q := (3 * (weekday - base)) / 7;
    assert base + 1461 * k == weekday + 7 * (208 * k + 2 * (weekday - base) - 5 * q);
  }

  predicate InCalendar(date: Date) {
    1 <= date.month <= 12 && 1 <= date.day <= LONGEST[date.month - 1] && 0 <= date.weekday < 7
  }

  lemma EveryDayIsInCalendar(day: int)
    ensures InCalendar(DateOf(day))
  {
    NextMonth(MonthOf(day));
    MonthLengths(MonthOf(day));
  }

  /** A date of the year 1972 + 4 * k, as a day. */
  function InLeapYear(k: nat, month: nat, date: nat): int
    requires month < 12
  {
    730 + 1461 * k + BEFORE_MONTH[month] + (if month >= 2 then 1 else 0) + date - 1
  }

  lemma LeapYearDate(k: nat, month: nat, date: nat)
    requires k < 7 && month < 12 && 1 <= date <= LONGEST[month]
    ensures var day := InLeapYear(k, month, date);
            MonthOf(day) == 24 + 48 * k + month && DateOf(day) == Date(month + 1, date, (day + 4) % 7)
  {
    var index := 24 + 48 * k + month;
    LeapMonthStart(k, month);
    LeapYearIndices(k, month);
    NextMonth(index);
    MonthLengths(index);
    MonthIsUnique(InLeapYear(k, month, date), index);
  }

  lemma DateIsMet(date: Date) returns (day: int)
    requires InCalendar(date)
    ensures DateOf(day) == date
  {
    var month := date.month - 1;
    var k := WeekdayIsMet(InLeapYear(0, month, date.day) + 4, date.weekday);
    day := InLeapYear(k, month, date.day);
    LeapYearDate(k, month, date.day);
  }

  /** Exactly the dates that a calendar has occur, each of them on every day of the week. */
  lemma DateOccursExactlyWhen(date: Date)
    ensures (exists day :: DateOf(day) == date) <==> InCalendar(date)
  {
    if exists day :: DateOf(day) == date {
      var day :| DateOf(day) == date;
      EveryDayIsInCalendar(day);
    }
    if InCalendar(date) {
      var day := DateIsMet(date);
    }
  }

  /* ---------- the parts of a local minute ---------- */

  /** Minutes are counted from the local midnight that began 1970. */
  function Day(minutes: int): int {
    minutes / DAY
  }

  function Minute(minutes: int): int {
    minutes % 60
  }

  function Hour(minutes: int): int {
    minutes % DAY / 60
  }

  function DayOfMonth(minutes: int): int {
    Day(minutes) - MonthStart(MonthOf(Day(minutes))) + 1
  }

  function DayOfWeek(minutes: int): int {
    (Day(minutes) + 4) % 7
  }

  function Month(minutes: int): int {
    MonthOf(Day(minutes)) % 12 + 1
  }

  function Year(minutes: int): int {
    YearOfMonth(MonthOf(Day(minutes)))
  }

  lemma DayOfSum(day: int, rest: int)
    requires 0 <= rest < DAY
    ensures Day(day * DAY + rest) == day && (day * DAY + rest) % DAY == rest
  {
  }

  /** Not past midnight is the same day, or midnight. */
  lemma WithinDayOrMidnight(at: int, next: int)
    requires at < next <= (Day(at) + 1) * DAY
    ensures Day(next) == Day(at) || (Day(next) == Day(at) + 1 && next % DAY == 0)
  {
    if next == (Day(at) + 1) * DAY {
      DayOfSum(Day(at) + 1, 0);
    } else {
      DayOfSum(Day(at), next - Day(at) * DAY);
    }
  }

  lemma HourOfSum(hours: int, minute: int)
    requires 0 <= minute < 60
    ensures (hours * 60 + minute) / 60 == hours && (hours * 60 + minute) % 60 == minute
  {
  }

  lemma TimeOfDay(day: int, hour: int, minute: int)
    requires 0 <= hour < 24 && 0 <= minute < 60
    ensures var m := day * DAY + hour * 60 + minute;
            Day(m) == day && Hour(m) == hour && Minute(m) == minute && day * DAY <= m < (day + 1) * DAY
  {
    var rest := hour * 60 + minute;
    DayOfSum(day, rest);
    HourOfSum(hour, minute);
    HourOfSum(day * 24 + hour, minute);
    assert day * DAY + rest == (day * 24 + hour) * 60 + minute;
  }

  lemma MinuteOfParts(minutes: int)
    ensures minutes == Day(minutes) * DAY + Hour(minutes) * 60 + Minute(minutes)
    ensures 0 <= Hour(minutes) < 24 && 0 <= Minute(minutes) < 60
  {
    var rest := minutes % DAY;
    var hour, minute := rest / 60, rest % 60;
    assert minutes == Day(minutes) * DAY + hour * 60 + minute;
    TimeOfDay(Day(minutes), hour, minute);
  }

  /** The parts stay in their ranges, and name the minute: together they give it back. */
  lemma PartsNameTheMinute(minutes: int)
    ensures 1 <= Month(minutes) <= 12 && 0 <= DayOfWeek(minutes) < 7
    ensures 1 <= DayOfMonth(minutes) <= MonthLength(MonthOf(Day(minutes)))
    ensures 0 <= Hour(minutes) < 24 && 0 <= Minute(minutes) < 60
    ensures minutes
         == (MonthStart(12 * (Year(minutes) - 1970) + Month(minutes) - 1) + DayOfMonth(minutes) - 1) * DAY
            + Hour(minutes) * 60 + Minute(minutes)
  {
    var day := Day(minutes);
    NextMonth(MonthOf(day));
    MinuteOfParts(minutes);
    assert 12 * (Year(minutes) - 1970) + Month(minutes) - 1 == MonthOf(day);
    assert MonthStart(MonthOf(day)) + DayOfMonth(minutes) - 1 == day;
  }

  /* ---------- a date that is set in place ---------- */

  class LocalDate {
    var minutes: int

    constructor (at: int)
      ensures minutes == at
    {
      minutes := at;
    }

    /** `setMonth(month, date)`: month 12 is January of the next year. */
    method SetMonth(month: int, date: int)
      modifies this
      ensures minutes == (MonthStart(12 * (old(Year(minutes)) - 1970) + month) + date - 1) * DAY + old(minutes) % DAY
    {
      minutes := (MonthStart(12 * (Year(minutes) - 1970) + month) + date - 1) * DAY + minutes % DAY;
    }

    /** `setDate`: a day past the end of the month falls into the next. */
    method SetDate(date: int)
      modifies this
      ensures minutes == (MonthStart(MonthOf(Day(old(minutes)))) + date - 1) * DAY + old(minutes) % DAY
    {
      minutes := (MonthStart(MonthOf(Day(minutes))) + date - 1) * DAY + minutes % DAY;
    }

    /** `setHours(hour, minute, 0, 0)`: hour 24 is the next midnight. */
    method SetHours(hour: int, minute: int)
      modifies this
      ensures minutes == Day(old(minutes)) * DAY + hour * 60 + minute
    {
      minutes := Day(minutes) * DAY + hour * 60 + minute;
    }

    method SetMinutes(minute: int)
      modifies this
      ensures minutes == Day(old(minutes)) * DAY + Hour(old(minutes)) * 60 + minute
    {
      minutes := Day(minutes) * DAY + Hour(minutes) * 60 + minute;
    }
  }

  /* ---------- what each way of skipping passes over ---------- */

  lemma DaysAscend(minutes: int, m: int, day: int)
    requires minutes <= m < day * DAY
    ensures Day(minutes) <= Day(m) < day
  {
  }

  lemma DayEnds(minutes: int, day: int)
    requires Day(minutes) < day
    ensures minutes < day * DAY
  {
  }

  /** Up to the next month's first midnight the month stays. */
  lemma MonthSkip(minutes: int, m: int)
    requires minutes <= m < MonthStart(MonthOf(Day(minutes)) + 1) * DAY
    ensures Month(m) == Month(minutes)
  {
    assert Day(minutes) <= Day(m) < MonthStart(MonthOf(Day(minutes)) + 1) by {
      DaysAscend(minutes, m, MonthStart(MonthOf(Day(minutes)) + 1));
    }
    MonthIsUnique(Day(m), MonthOf(Day(minutes)));
  }

  lemma DaySkip(minutes: int, m: int)
    requires minutes <= m < (Day(minutes) + 1) * DAY
    ensures DayOfMonth(m) == DayOfMonth(minutes) && DayOfWeek(m) == DayOfWeek(minutes)
  {
    assert Day(m) == Day(minutes);
  }

  lemma HourSkip(minutes: int, m: int)
    requires minutes <= m < Day(minutes) * DAY + (Hour(minutes) + 1) * 60
    ensures Hour(m) == Hour(minutes)
  {
    assert Day(m) == Day(minutes);
  }
}
