/** Five-field cron expressions: the sets that their fields denote, and the search for the next time. */
module Cron {
  import opened Basics
  import opened Calendar

  /* ---------- fields, already split at commas ---------- */

  /** A number is None where the text does not start with one. `Span` without a step, or with an empty one,
      has step None. */
  datatype Part =
    | Star
    | Every(step: Option<int>)
    | Span(start: Option<int>, end: Option<int>, stride: Option<Option<int>>)
    | One(number: Option<int>)

  datatype CronError = InvalidPart(part: Part) | NotFiveFields | NoTimeFound

  function Stride(part: Part): Option<int>
    requires part.Span?
  {
    part.stride.GetOr(Some(1))
  }

  predicate Valid(part: Part, lo: int, hi: int) {
    match part
    case Star => true
    case Every(step) => step.Some? && step.value > 0
    case Span(start, end, _) =>
      start.Some? && end.Some? && Stride(part).Some? && Stride(part).value > 0 && start.value <= end.value
    case One(number) => number.Some? && lo <= number.value <= hi
  }

  function Max(a: int, b: int): int {
    if a < b then b else a
  }

  function Min(a: int, b: int): int {
    if a < b then a else b
  }

  predicate OnGrid(from: int, step: int, n: int)
    requires step > 0
  {
    from <= n && (n - from) % step == 0
  }

  /** The numbers a part stands for. A range is first cut to the field's limits: its steps count from there. */
  predicate Admits(part: Part, lo: int, hi: int, i: int)
    requires Valid(part, lo, hi)
  {
    match part
    case Star => lo <= i <= hi
    case Every(step) => i <= hi && OnGrid(lo, step.value, i)
    case Span(start, end, _) =>
      i <= Min(hi, end.value) && OnGrid(Max(lo, start.value), Stride(part).value, i)
    case One(number) => i == number.value
  }

  predicate AllValid(parts: seq<Part>, lo: int, hi: int) {
    forall k :: 0 <= k < |parts| ==> Valid(parts[k], lo, hi)
  }

  predicate Admitted(parts: seq<Part>, lo: int, hi: int, i: int)
    requires AllValid(parts, lo, hi)
  {
    exists k :: 0 <= k < |parts| && Admits(parts[k], lo, hi, i)
  }

  /** A range outside the field's limits is accepted, and stands for nothing: no time will match it. */
  lemma SpanIsEmptyExactlyWhen(part: Part, lo: int, hi: int)
    requires part.Span? && Valid(part, lo, hi) && lo <= hi
    ensures (forall i :: !Admits(part, lo, hi, i)) <==> hi < part.start.value || part.end.value < lo
  {
    var first := Max(lo, part.start.value);
    assert OnGrid(first, Stride(part).value, first);
    if lo <= part.end.value && part.start.value <= hi {
      assert Admits(part, lo, hi, first);
    }
  }

  /* ---------- filling the sets ---------- */

  lemma MultiplesAreApart(step: int, k: int)
    requires step > 0 && k >= 1
    ensures step * k >= step
  {
  }

  lemma DivisionIsUnique(a: int, step: int, q: int, r: int)
    requires step > 0 && 0 <= r < step && a == step * q + r
    ensures a % step == r
  {
    var p, s := a / step, a % step;
    assert a == step * p + s;
    if p > q {
      MultiplesAreApart(step, p - q);
    } else if p < q {
      MultiplesAreApart(step, q - p);
    }
  }

  /** From one number of the grid to the next. */
  lemma NextOnGrid(from: int, step: int, i: int, n: int)
    requires step > 0 && OnGrid(from, step, i) && i < n <= i + step
    ensures OnGrid(from, step, n) <==> n == i + step
  {
    var q := (i - from) / step;
    assert i - from == step * q;
    if n == i + step {
      assert step * (q + 1) == step * q + step;
      DivisionIsUnique(n - from, step, q + 1, 0);
    } else {
      DivisionIsUnique(n - from, step, q, n - i);
    }
  }

  method AddSteps(before: set<int>, from: int, last: int, step: int) returns (result: set<int>)
    requires step > 0
    ensures forall n :: n in result <==> (n in before || (n <= last && OnGrid(from, step, n)))
  {
    result := before;
    var i := from;
    assert 0 % step == 0 by {
      DivisionIsUnique(0, step, 0, 0);
    }
    while i <= last
      invariant OnGrid(from, step, i)
      invariant forall n :: n in result <==> (n in before || (n < i && n <= last && OnGrid(from, step, n)))
      decreases last - i
    {
      result := result + {i};
      forall n | i < n <= i + step ensures OnGrid(from, step, n) <==> n == i + step {
        NextOnGrid(from, step, i, n);
      }
      i := i + step;
    }
  }

  method ParseField(parts: seq<Part>, lo: int, hi: int) returns (r: Result<set<int>, CronError>)
    ensures r.Ok? <==> AllValid(parts, lo, hi)
    ensures r.Ok? ==> forall i :: i in r.value <==> Admitted(parts, lo, hi, i)
    ensures r.Err? ==>
              exists k :: 0 <= k < |parts| && !Valid(parts[k], lo, hi) && AllValid(parts[..k], lo, hi)
                          && r == Err(InvalidPart(parts[k]))
  {
    var result: set<int> := {};
    for k := 0 to |parts|
      invariant AllValid(parts[..k], lo, hi)
      invariant forall i :: i in result <==> Admitted(parts[..k], lo, hi, i)
    {
      var part := parts[k];
      if !Valid(part, lo, hi) {
        return Err(InvalidPart(part));
      }
      ghost var before := result;
      match part {
        case Star => result := AddSteps(result, lo, hi, 1);
        case Every(step) => result := AddSteps(result, lo, hi, step.value);
        case Span(start, end, _) =>
          result := AddSteps(result, Max(lo, start.value), Min(hi, end.value), Stride(part).value);
        case One(number) => result := result + {number.value};
      }
      assert parts[..k + 1] == parts[..k] + [part];
      forall i ensures i in result <==> Admitted(parts[..k + 1], lo, hi, i) {
        AdmittedBySnoc(parts[..k], part, lo, hi, i);
      }
    }
    assert parts[..|parts|] == parts;
    return Ok(result);
  }

  lemma AdmittedBySnoc(parts: seq<Part>, part: Part, lo: int, hi: int, i: int)
    requires AllValid(parts, lo, hi) && Valid(part, lo, hi)
    ensures AllValid(parts + [part], lo, hi)
    ensures Admitted(parts + [part], lo, hi, i) <==> Admitted(parts, lo, hi, i) || Admits(part, lo, hi, i)
  {
    var all := parts + [part];
    if Admitted(parts, lo, hi, i) {
      var k :| 0 <= k < |parts| && Admits(parts[k], lo, hi, i);
      assert all[k] == parts[k];
    }
    if Admits(part, lo, hi, i) {
      assert all[|parts|] == part;
    }
  }

  datatype Parsed = Parsed(minutes: set<int>, hours: set<int>, daysOfMonth: set<int>, months: set<int>,
                           daysOfWeek: set<int>)

  type Fields = seq<seq<Part>>

  predicate AllFieldsValid(fields: Fields) {
    && |fields| == 5
    && AllValid(fields[0], 0, 59)
    && AllValid(fields[1], 0, 23)
    && AllValid(fields[2], 1, 31)
    && AllValid(fields[3], 1, 12)
    && AllValid(fields[4], 0, 7)
  }

  /** The minute matches all five fields; day 7 of the week is day 0. */
  predicate Matches(fields: Fields, m: int)
    requires AllFieldsValid(fields)
  {
    && Admitted(fields[0], 0, 59, Minute(m))
    && Admitted(fields[1], 0, 23, Hour(m))
    && Admitted(fields[2], 1, 31, DayOfMonth(m))
    && Admitted(fields[3], 1, 12, Month(m))
    && (Admitted(fields[4], 0, 7, DayOfWeek(m)) || (DayOfWeek(m) == 0 && Admitted(fields[4], 0, 7, 7)))
  }

  predicate MatchesSets(p: Parsed, m: int) {
    && Minute(m) in p.minutes
    && Hour(m) in p.hours
    && DayOfMonth(m) in p.daysOfMonth
    && Month(m) in p.months
    && DayOfWeek(m) in p.daysOfWeek
  }

  method ParseCronExpression(fields: Fields) returns (r: Result<Parsed, CronError>)
    ensures r.Ok? <==> AllFieldsValid(fields)
    ensures r.Ok? ==> forall m :: MatchesSets(r.value, m) <==> Matches(fields, m)
    ensures r.Err? ==> if |fields| == 5 then r.error.InvalidPart? else r.error == NotFiveFields
  {
    if |fields| != 5 {
      return Err(NotFiveFields);
    }
    var minutes :- ParseField(fields[0], 0, 59);
    var hours :- ParseField(fields[1], 0, 23);
    var daysOfMonth :- ParseField(fields[2], 1, 31);
    var months :- ParseField(fields[3], 1, 12);
    var rawDaysOfWeek :- ParseField(fields[4], 0, 7);
    var daysOfWeek := set d | d in rawDaysOfWeek :: if d == 7 then 0 else d;
    forall m ensures DayOfWeek(m) in daysOfWeek
                <==> DayOfWeek(m) in rawDaysOfWeek || (DayOfWeek(m) == 0 && 7 in rawDaysOfWeek)
    {
      assert DayOfWeek(m) != 7;
    }
    return Ok(Parsed(minutes, hours, daysOfMonth, months, daysOfWeek));
  }

  /* ---------- the search ---------- */

  const HORIZON := 5 * 366 * 24 * 60

  const MS_PER_MINUTE := 60000

  /** The timestamp of local minute `m`; `offset` is what local time is ahead of UTC, in minutes. */
  function Instant(m: int, offset: int): int {
    (m - offset) * MS_PER_MINUTE
  }

  predicate NoneBetween(p: Parsed, start: int, m: int) {
    forall n :: start <= n < m ==> !MatchesSets(p, n)
  }

  lemma MonthPasses(p: Parsed, start: int, m: int)
    requires NoneBetween(p, start, m) && Month(m) !in p.months
    ensures var next := MonthStart(MonthOf(Day(m)) + 1) * DAY;
            m < next && NoneBetween(p, start, next)
  {
    var next := MonthStart(MonthOf(Day(m)) + 1) * DAY;
    DayEnds(m, MonthStart(MonthOf(Day(m)) + 1));
    forall n | m <= n < next ensures !MatchesSets(p, n) {
      MonthSkip(m, n);
    }
  }

  lemma DayPasses(p: Parsed, start: int, m: int)
    requires NoneBetween(p, start, m) && (DayOfMonth(m) !in p.daysOfMonth || DayOfWeek(m) !in p.daysOfWeek)
    ensures var next := (Day(m) + 1) * DAY;
            m < next && NoneBetween(p, start, next)
  {
    var next := (Day(m) + 1) * DAY;
    forall n | m <= n < next ensures !MatchesSets(p, n) {
      DaySkip(m, n);
    }
  }

  lemma HourPasses(p: Parsed, start: int, m: int)
    requires NoneBetween(p, start, m) && Hour(m) !in p.hours
    ensures var next := Day(m) * DAY + (Hour(m) + 1) * 60;
            m < next && NoneBetween(p, start, next)
  {
    var next := Day(m) * DAY + (Hour(m) + 1) * 60;
    assert m < next;
    forall n | m <= n < next ensures !MatchesSets(p, n) {
      HourSkip(m, n);
    }
  }

  method ToNextMonth(date: LocalDate)
    modifies date
    ensures date.minutes == MonthStart(MonthOf(Day(old(date.minutes))) + 1) * DAY
  {
    ghost var at := date.minutes;
    ghost var first := MonthStart(MonthOf(Day(at)) + 1);
    date.SetMonth(Month(date.minutes), 1);
    DayOfSum(first, at % DAY);
    assert date.minutes == first * DAY + at % DAY;
    date.SetHours(0, 0);
  }

  method ToNextDay(date: LocalDate)
    modifies date
    ensures date.minutes == (Day(old(date.minutes)) + 1) * DAY
  {
    ghost var at := date.minutes;
    date.SetDate(DayOfMonth(date.minutes) + 1);
    DayOfSum(Day(at) + 1, at % DAY);
    assert date.minutes == (Day(at) + 1) * DAY + at % DAY;
    date.SetHours(0, 0);
  }

  method ToNextHour(date: LocalDate)
    modifies date
    ensures date.minutes == Day(old(date.minutes)) * DAY + (Hour(old(date.minutes)) + 1) * 60
  {
    date.SetHours(Hour(date.minutes) + 1, 0);
  }

  method ToNextMinute(date: LocalDate)
    modifies date
    ensures date.minutes == old(date.minutes) + 1
  {
    MinuteOfParts(date.minutes);
    date.SetMinutes(Minute(date.minutes) + 1);
  }

  /* ---------- how many turns a search can take ---------- */

  predicate DateMatches(p: Parsed, date: Date) {
    date.month in p.months && date.day in p.daysOfMonth && date.weekday in p.daysOfWeek
  }

  /** Some time of day is in the sets. */
  predicate HasTime(p: Parsed) {
    (exists h :: 0 <= h < 24 && h in p.hours) && exists n :: 0 <= n < 60 && n in p.minutes
  }

  lemma WithoutTimeNothingMatches(p: Parsed, m: int)
    requires !HasTime(p)
    ensures !MatchesSets(p, m)
  {
    PartsNameTheMinute(m);
  }

  lemma DayIsNotPassed(p: Parsed, start: int, m: int, day: int)
    requires HasTime(p) && NoneBetween(p, start, m) && start <= day * DAY && (day + 1) * DAY <= m
    ensures !DateMatches(p, DateOf(day))
  {
    var h :| 0 <= h < 24 && h in p.hours;
    var n :| 0 <= n < 60 && n in p.minutes;
    TimeOfDay(day, h, n);
    assert !MatchesSets(p, day * DAY + h * 60 + n);
  }

  /** Dates repeat: what no day of 400 years matches is never matched, neither before nor after. */
  lemma NothingForACycle(p: Parsed, start: int, m: int, n: int)
    requires HasTime(p) && NoneBetween(p, start, m) && (Day(start) + 1 + CYCLE) * DAY <= m
    ensures !MatchesSets(p, n)
  {
    var again := DateComesAgain(Day(n), Day(start) + 1);
    assert start <= again * DAY && (again + 1) * DAY <= m;
    DayIsNotPassed(p, start, m, again);
  }

  /** A bound on the turns before `at`: every minute of the first day, one turn for each later day, and the
      minutes of the day of `at`. */
  function Budget(start: int, at: int): int {
    if Day(at) == Day(start) then at - start else DAY + Day(at) - Day(start) + at % DAY
  }

  /** After the first day the search stops inside a day only if the day's date matches. */
  predicate InsideMatchingDay(p: Parsed, start: int, at: int) {
    Day(start) < Day(at) && at % DAY != 0 ==> DateMatches(p, DateOf(Day(at)))
  }

  lemma WithinDay(p: Parsed, start: int, at: int, next: int)
    requires start <= at < next && Day(next) == Day(at)
    ensures Budget(start, at) < Budget(start, next)
  {
  }

  /** A day that matches is not left again, as one of its minutes matches. */
  lemma ToAnotherDay(p: Parsed, start: int, at: int, next: int)
    requires HasTime(p) && start <= at < next && Day(at) < Day(next) && next % DAY == 0
    requires InsideMatchingDay(p, start, at) && NoneBetween(p, start, next)
    ensures Budget(start, at) < Budget(start, next)
  {
    if Day(start) < Day(at) && at % DAY != 0 {
      DayIsNotPassed(p, start, next, Day(at));
    }
  }

  predicate OneTurn(p: Parsed, at: int, next: int) {
    at < next && (if Day(next) == Day(at) then DateMatches(p, DateOf(Day(at))) else next % DAY == 0)
  }

  lemma TurnIsPaid(p: Parsed, start: int, at: int, next: int)
    requires start <= at && OneTurn(p, at, next)
    requires InsideMatchingDay(p, start, at) && NoneBetween(p, start, next)
    ensures InsideMatchingDay(p, start, next)
    ensures HasTime(p) ==> Budget(start, at) < Budget(start, next)
  {
    if HasTime(p) {
      if Day(next) == Day(at) {
        WithinDay(p, start, at, next);
      } else {
        ToAnotherDay(p, start, at, next);
      }
    }
  }

  lemma TurnsToMidnight(p: Parsed, at: int, day: int)
    requires at < day * DAY && Day(at) < day
    ensures OneTurn(p, at, day * DAY)
  {
    DayOfSum(day, 0);
  }

  lemma TurnsWithinDay(p: Parsed, at: int, next: int)
    requires DateMatches(p, DateOf(Day(at))) && at < next <= (Day(at) + 1) * DAY
    ensures OneTurn(p, at, next)
  {
    WithinDayOrMidnight(at, next);
  }

  lemma HourIsWithinDay(at: int)
    ensures at < Day(at) * DAY + (Hour(at) + 1) * 60 <= (Day(at) + 1) * DAY
    ensures at + 1 <= (Day(at) + 1) * DAY
  {
  }

  /** So many turns cover more than 400 years. */
  lemma HorizonIsPastACycle(start: int, at: int)
    requires start <= at && HORIZON <= Budget(start, at)
    ensures (Day(start) + 1 + CYCLE) * DAY <= at
  {
  }

  /** After so many turns the search is at `at`, and has passed over nothing. */
  predicate Searching(p: Parsed, start: int, at: int, turns: int) {
    match p
    case Parsed(_, _, _, _, _) =>
      && start <= at
      && NoneBetween(p, start, at)
      && InsideMatchingDay(p, start, at)
      && (HasTime(p) ==> turns <= Budget(start, at))
  }

  lemma MonthTurn(p: Parsed, start: int, at: int, turns: int)
    requires Searching(p, start, at, turns) && Month(at) !in p.months
    ensures Searching(p, start, MonthStart(MonthOf(Day(at)) + 1) * DAY, turns + 1)
  {
    MonthPasses(p, start, at);
    TurnsToMidnight(p, at, MonthStart(MonthOf(Day(at)) + 1));
    TurnIsPaid(p, start, at, MonthStart(MonthOf(Day(at)) + 1) * DAY);
  }

  lemma DayTurn(p: Parsed, start: int, at: int, turns: int)
    requires Searching(p, start, at, turns) && (DayOfMonth(at) !in p.daysOfMonth || DayOfWeek(at) !in p.daysOfWeek)
    ensures Searching(p, start, (Day(at) + 1) * DAY, turns + 1)
  {
    DayPasses(p, start, at);
    TurnsToMidnight(p, at, Day(at) + 1);
    TurnIsPaid(p, start, at, (Day(at) + 1) * DAY);
  }

  lemma HourTurn(p: Parsed, start: int, at: int, turns: int)
    requires Searching(p, start, at, turns) && DateMatches(p, DateOf(Day(at))) && Hour(at) !in p.hours
    ensures Searching(p, start, Day(at) * DAY + (Hour(at) + 1) * 60, turns + 1)
  {
    HourPasses(p, start, at);
    HourIsWithinDay(at);
    TurnsWithinDay(p, at, Day(at) * DAY + (Hour(at) + 1) * 60);
    TurnIsPaid(p, start, at, Day(at) * DAY + (Hour(at) + 1) * 60);
  }

  lemma MinuteTurn(p: Parsed, start: int, at: int, turns: int)
    requires Searching(p, start, at, turns) && DateMatches(p, DateOf(Day(at))) && Minute(at) !in p.minutes
    ensures Searching(p, start, at + 1, turns + 1)
  {
    HourIsWithinDay(at);
    TurnsWithinDay(p, at, at + 1);
    TurnIsPaid(p, start, at, at + 1);
  }

  lemma SearchBegins(p: Parsed, start: int)
    ensures Searching(p, start, start, 0)
  {
  }

  lemma SearchEnds(p: Parsed, start: int, at: int, turns: int)
    requires Searching(p, start, at, turns)
    ensures start <= at && NoneBetween(p, start, at)
    ensures turns == HORIZON ==> forall m :: !MatchesSets(p, m)
  {
    if turns == HORIZON {
      forall m ensures !MatchesSets(p, m) {
        if HasTime(p) {
          HorizonIsPastACycle(start, at);
          NothingForACycle(p, start, at, m);
        } else {
          WithoutTimeNothingMatches(p, m);
        }
      }
    }
  }

  /** The first matching minute from `start` on; None only if no minute ever matches. */
  method Search(p: Parsed, start: int) returns (found: Option<int>)
    ensures found.Some? ==> start <= found.value && MatchesSets(p, found.value) && NoneBetween(p, start, found.value)
    ensures found.None? ==> forall m :: !MatchesSets(p, m)
  {
    var date := new LocalDate(start);
    var iterations := 0;
    SearchBegins(p, start);
    while iterations < HORIZON
      invariant 0 <= iterations <= HORIZON
      invariant Searching(p, start, date.minutes, iterations)
      decreases HORIZON - iterations
    {
      var at := date.minutes;
      ghost var turns := iterations;
      iterations := iterations + 1;
      if Month(at) !in p.months {
        MonthTurn(p, start, at, turns);
        ToNextMonth(date);
        continue;
      }
      if DayOfMonth(at) !in p.daysOfMonth || DayOfWeek(at) !in p.daysOfWeek {
        DayTurn(p, start, at, turns);
        ToNextDay(date);
        continue;
      }
      if Hour(at) !in p.hours {
        HourTurn(p, start, at, turns);
        ToNextHour(date);
        continue;
      }
      if Minute(at) !in p.minutes {
        MinuteTurn(p, start, at, turns);
        ToNextMinute(date);
        continue;
      }
      SearchEnds(p, start, at, turns);
      return Some(at);
    }
    SearchEnds(p, start, date.minutes, iterations);
    return None;
  }

  /* ---------- which expressions ever fire ---------- */

  predicate WeekdayAdmitted(fields: Fields, weekday: int)
    requires AllFieldsValid(fields)
  {
    Admitted(fields[4], 0, 7, weekday) || (weekday == 0 && Admitted(fields[4], 0, 7, 7))
  }

  predicate DateAdmitted(fields: Fields, date: Date)
    requires AllFieldsValid(fields)
  {
    && Admitted(fields[2], 1, 31, date.day)
    && Admitted(fields[3], 1, 12, date.month)
    && WeekdayAdmitted(fields, date.weekday)
  }

  predicate TimeAdmitted(fields: Fields, hour: int, minute: int)
    requires AllFieldsValid(fields)
  {
    Admitted(fields[0], 0, 59, minute) && Admitted(fields[1], 0, 23, hour)
  }

  /** Some minute has any date of the calendar and any time of day. */
  lemma MinuteIsMet(date: Date, hour: int, minute: int) returns (m: int)
    requires InCalendar(date) && 0 <= hour < 24 && 0 <= minute < 60
    ensures DateOf(Day(m)) == date && Hour(m) == hour && Minute(m) == minute
  {
    var day := DateIsMet(date);
    TimeOfDay(day, hour, minute);
    m := day * DAY + hour * 60 + minute;
  }

  lemma MinuteIsOnItsDate(fields: Fields, m: int)
    requires AllFieldsValid(fields)
    ensures InCalendar(DateOf(Day(m)))
    ensures Matches(fields, m) <==> TimeAdmitted(fields, Hour(m), Minute(m)) && DateAdmitted(fields, DateOf(Day(m)))
  {
    EveryDayIsInCalendar(Day(m));
  }

  predicate SomeTime(fields: Fields)
    requires AllFieldsValid(fields)
  {
    exists hour, minute :: 0 <= hour < 24 && 0 <= minute < 60 && TimeAdmitted(fields, hour, minute)
  }

  /** No field is empty, and some month is long enough for some day: a check of the expression alone. */
  predicate CanFire(fields: Fields)
    requires AllFieldsValid(fields)
  {
    && SomeTime(fields)
    && exists month, day, weekday :: 1 <= month <= 12 && 1 <= day <= LONGEST[month - 1] && 0 <= weekday < 7
         && DateAdmitted(fields, Date(month, day, weekday))
  }

  lemma FiresExactlyWhen(fields: Fields)
    requires AllFieldsValid(fields)
    ensures (exists m :: Matches(fields, m)) <==> CanFire(fields)
  {
    if exists m :: Matches(fields, m) {
      var m :| Matches(fields, m);
      MinuteIsOnItsDate(fields, m);
      PartsNameTheMinute(m);
      var date := DateOf(Day(m));
      assert TimeAdmitted(fields, Hour(m), Minute(m));
      assert DateAdmitted(fields, Date(date.month, date.day, date.weekday));
    }
    if CanFire(fields) {
      var hour, minute :| 0 <= hour < 24 && 0 <= minute < 60 && TimeAdmitted(fields, hour, minute);
      var month, day, weekday :| 1 <= month <= 12 && 1 <= day <= LONGEST[month - 1] && 0 <= weekday < 7
        && DateAdmitted(fields, Date(month, day, weekday));
      var m := MinuteIsMet(Date(month, day, weekday), hour, minute);
      MinuteIsOnItsDate(fields, m);
    }
  }

  /** `m` is the first matching minute whose timestamp is greater than `from`. */
  ghost predicate FirstAfter(fields: Fields, from: int, offset: int, m: int)
    requires AllFieldsValid(fields)
  {
    && from < Instant(m, offset)
    && Matches(fields, m)
    && forall n :: from < Instant(n, offset) && n < m ==> !Matches(fields, n)
  }

  /** The first time after `from`, if the expression fires at all: only one that never does is refused. */
  method GetNextCronTime(fields: Fields, from: int, offset: int) returns (r: Result<int, CronError>)
    ensures !AllFieldsValid(fields) ==> r.Err? && r.error != NoTimeFound
    ensures AllFieldsValid(fields) ==>
              match r
              case Ok(t) => CanFire(fields) && exists m :: t == Instant(m, offset) && FirstAfter(fields, from, offset, m)
              case Err(e) => e == NoTimeFound && !CanFire(fields)
  {
    var parsed :- ParseCronExpression(fields);
    var start := from / MS_PER_MINUTE + offset + 1;
    forall n ensures from < Instant(n, offset) <==> start <= n {
    }
    FiresExactlyWhen(fields);
    var found := Search(parsed, start);
    if found.None? {
      return Err(NoTimeFound);
    }
    assert FirstAfter(fields, from, offset, found.value);
    return Ok(Instant(found.value, offset));
  }

  /* ---------- an answer that is further away than five years ---------- */

  /** `0 0 29 2 1`: midnight, when the 29th of February is a Monday. */
  const LEAP_MONDAY: Fields := [Exactly(0), Exactly(0), Exactly(29), Exactly(2), Exactly(1)]

  function Exactly(number: int): seq<Part> {
    [One(Some(number))]
  }

  lemma ExactlyAdmits(number: int, lo: int, hi: int, i: int)
    requires lo <= number <= hi
    ensures AllValid(Exactly(number), lo, hi) && (Admitted(Exactly(number), lo, hi, i) <==> i == number)
  {
    assert Exactly(number)[0] == One(Some(number));
  }

  lemma LeapMondayMatches(m: int)
    ensures AllFieldsValid(LEAP_MONDAY)
    ensures Matches(LEAP_MONDAY, m) <==> m == Day(m) * DAY && DateOf(Day(m)) == Date(2, 29, 1)
  {
    ExactlyAdmits(0, 0, 59, Minute(m));
    ExactlyAdmits(0, 0, 23, Hour(m));
    ExactlyAdmits(29, 1, 31, DayOfMonth(m));
    ExactlyAdmits(2, 1, 12, Month(m));
    ExactlyAdmits(1, 0, 7, DayOfWeek(m));
    ExactlyAdmits(1, 0, 7, 7);
    MinuteOfParts(m);
    PartsNameTheMinute(m);
  }

  /** The leap day of the year 1972 + 4 * k. */
  function LeapDay(k: nat): int {
    789 + 1461 * k
  }

  lemma LeapDayDate(k: nat, month: nat)
    requires k < 7 && month == 1
    ensures LeapDay(k) == InLeapYear(k, month, 29)
    ensures MonthOf(LeapDay(k)) == 24 + 48 * k + month
    ensures DateOf(LeapDay(k)) == Date(2, 29, (LeapDay(k) + 4) % 7)
  {
    LeapYearDate(k, month, 29);
  }

  lemma MonthsFollowDays(day: int, later: int)
    requires day <= later
    ensures MonthOf(day) <= MonthOf(later)
  {
    if MonthOf(later) < MonthOf(day) {
      MonthsAscend(MonthOf(later) + 1, MonthOf(day));
    }
  }

  lemma LeapYearsByFour(index: int, last: nat) returns (k: nat)
    requires last < 7 && 0 <= index <= 24 + 48 * last + 1 && index % 12 == 1 && Leap(YearOfMonth(index))
    ensures k <= last && index == 24 + 48 * k + 1
  {
    k := (index - 25) / 48;
  }

  lemma LastOfFebruary(day: int)
    requires DateOf(day).month == 2 && DateOf(day).day == 29
    ensures MonthOf(day) % 12 == 1 && Leap(YearOfMonth(MonthOf(day)))
  {
    NextMonth(MonthOf(day));
  }

  lemma NoMonthBeforeTheFirst(day: int)
    requires 0 <= day
    ensures 0 <= MonthOf(day)
  {
    if MonthOf(day) < 0 {
      MonthsAscend(MonthOf(day) + 1, 0);
    }
  }

  predicate OnLeapDay(day: int) {
    DateOf(day).month == 2 && DateOf(day).day == 29
  }

  lemma OneLeapDayAMonth(day: int, other: int)
    requires OnLeapDay(day) && OnLeapDay(other) && MonthOf(day) == MonthOf(other)
    ensures day == other
  {
  }

  lemma LeapDayIsInMonth(day: int, last: nat, month: nat)
    requires last < 7 && month == 1 && 0 <= day <= LeapDay(last) && OnLeapDay(day)
    ensures 0 <= MonthOf(day) <= 24 + 48 * last + 1 && MonthOf(day) % 12 == 1 && Leap(YearOfMonth(MonthOf(day)))
  {
    LastOfFebruary(day);
    NoMonthBeforeTheFirst(day);
    LeapDayDate(last, month);
    MonthsFollowDays(day, LeapDay(last));
  }

  /** From 1970 on the leap days are those, up to 1996. */
  lemma LeapDaysByFour(day: int, last: nat, month: nat) returns (k: nat)
    requires last < 7 && month == 1 && 0 <= day <= LeapDay(last) && OnLeapDay(day)
    ensures k <= last && day == LeapDay(k)
  {
    LeapDayIsInMonth(day, last, month);
    k := LeapYearsByFour(MonthOf(day), last);
    LeapDayDate(k, month);
    OneLeapDayAMonth(day, LeapDay(k));
  }

  /** Only the fifth of these leap days is a Monday. */
  lemma LeapMondays(k: nat, last: nat)
    requires last == 4 && k <= last
    ensures (LeapDay(k) + 4) % 7 == 1 <==> k == last
  {
  }

  lemma NoLeapMondayBefore(n: int, last: nat, month: nat)
    requires month == 1 && last == 4 && 0 < n < LeapDay(last) * DAY
    ensures AllFieldsValid(LEAP_MONDAY) && !Matches(LEAP_MONDAY, n)
  {
    LeapMondayMatches(n);
    if Matches(LEAP_MONDAY, n) {
      var k := LeapDaysByFour(Day(n), last, month);
      LeapDayDate(k, month);
      LeapMondays(k, last);
    }
  }

  lemma LeapMondayAnswers(last: nat, month: nat)
    requires last == 4 && month == 1
    ensures AllFieldsValid(LEAP_MONDAY) && Matches(LEAP_MONDAY, LeapDay(last) * DAY)
  {
    LeapDayDate(last, month);
    LeapMondays(last, last);
    LeapMondayMatches(LeapDay(last) * DAY);
    DayOfSum(LeapDay(last), 0);
  }

  lemma LeapMondayIsFirst(last: nat, month: nat)
    requires last == 4 && month == 1
    ensures AllFieldsValid(LEAP_MONDAY) && FirstAfter(LEAP_MONDAY, 0, 0, LeapDay(last) * DAY)
  {
    LeapMondayAnswers(last, month);
    forall n | 0 < Instant(n, 0) && n < LeapDay(last) * DAY ensures !Matches(LEAP_MONDAY, n) {
      NoLeapMondayBefore(n, last, month);
    }
  }

  /** From the first moment of 1970 the next such midnight is in 1988, on the 6634th day, and the search finds
      it: it goes far beyond five years. */
  lemma AnswerBeyondFiveYears() returns (answer: int)
    ensures AllFieldsValid(LEAP_MONDAY) && FirstAfter(LEAP_MONDAY, 0, 0, answer)
    ensures answer == 6633 * DAY > 3 * HORIZON
  {
    var last: nat, month: nat := 4, 1;
    LeapMondayIsFirst(last, month);
    answer := LeapDay(last) * DAY;
  }

  /* ---------- both day fields, or either ---------- */

  /** What a crontab makes of its day fields. POSIX asks for month and day of month, or for the day of the week;
      common implementations ask for the month and for either day. A field written as an asterisk does not take
      part; to some implementations, every field that begins with one is such a field. */
  datatype Crontab = Posix | Common(leading: bool)

  predicate IsStar(parts: seq<Part>, leading: bool) {
    if leading then parts != [] && (parts[0].Star? || parts[0].Every?) else parts == [Star]
  }

  /** Both alternatives are given. */
  predicate BothGiven(crontab: Crontab, fields: Fields)
    requires |fields| == 5
  {
    match crontab
    case Posix => !IsStar(fields[4], false) && !(IsStar(fields[2], false) && IsStar(fields[3], false))
    case Common(leading) => !IsStar(fields[2], leading) && !IsStar(fields[4], leading)
  }

  predicate DateAdmittedBy(crontab: Crontab, fields: Fields, date: Date)
    requires AllFieldsValid(fields)
  {
    var month, day := Admitted(fields[3], 1, 12, date.month), Admitted(fields[2], 1, 31, date.day);
    var weekday := WeekdayAdmitted(fields, date.weekday);
    match crontab
    case Posix =>
      if IsStar(fields[4], false) then month && day
      else if IsStar(fields[2], false) && IsStar(fields[3], false) then weekday
      else (month && day) || weekday
    case Common(leading) =>
      month && if IsStar(fields[2], leading) || IsStar(fields[4], leading) then day && weekday else day || weekday
  }

  predicate MatchesBy(crontab: Crontab, fields: Fields, m: int)
    requires AllFieldsValid(fields)
  {
    TimeAdmitted(fields, Hour(m), Minute(m)) && DateAdmittedBy(crontab, fields, DateOf(Day(m)))
  }

  /** The date meets only one of the alternatives. */
  predicate OneOfTheTwo(crontab: Crontab, fields: Fields, date: Date)
    requires AllFieldsValid(fields)
  {
    var month, day := Admitted(fields[3], 1, 12, date.month), Admitted(fields[2], 1, 31, date.day);
    var weekday := WeekdayAdmitted(fields, date.weekday);
    match crontab
    case Posix => (month && day) != weekday
    case Common(_) => month && day != weekday
  }

  lemma StarAdmitsAll(lo: int, hi: int, i: int)
    requires lo <= i <= hi
    ensures Admitted([Star], lo, hi, i)
  {
    assert [Star][0] == Star;
  }

  lemma DateDiffersExactlyWhen(crontab: Crontab, fields: Fields, date: Date)
    requires AllFieldsValid(fields) && InCalendar(date)
    ensures DateAdmitted(fields, date) != DateAdmittedBy(crontab, fields, date)
       <==> BothGiven(crontab, fields) && OneOfTheTwo(crontab, fields, date)
  {
    StarAdmitsAll(1, 31, date.day);
    StarAdmitsAll(1, 12, date.month);
    StarAdmitsAll(0, 7, date.weekday);
  }

  predicate SomeDateMeetsOne(crontab: Crontab, fields: Fields)
    requires AllFieldsValid(fields)
  {
    exists month, day, weekday :: 1 <= month <= 12 && 1 <= day <= LONGEST[month - 1] && 0 <= weekday < 7
      && OneOfTheTwo(crontab, fields, Date(month, day, weekday))
  }

  lemma MinuteDiffersExactlyWhen(crontab: Crontab, fields: Fields, m: int)
    requires AllFieldsValid(fields)
    ensures Matches(fields, m) != MatchesBy(crontab, fields, m)
       <==> && TimeAdmitted(fields, Hour(m), Minute(m))
            && BothGiven(crontab, fields) && OneOfTheTwo(crontab, fields, DateOf(Day(m)))
  {
    MinuteIsOnItsDate(fields, m);
    DateDiffersExactlyWhen(crontab, fields, DateOf(Day(m)));
  }

  lemma DifferingMinuteShows(crontab: Crontab, fields: Fields, m: int)
    requires AllFieldsValid(fields) && Matches(fields, m) != MatchesBy(crontab, fields, m)
    ensures SomeTime(fields) && BothGiven(crontab, fields) && SomeDateMeetsOne(crontab, fields)
  {
    MinuteDiffersExactlyWhen(crontab, fields, m);
    EveryDayIsInCalendar(Day(m));
    MinuteOfParts(m);
    var date := DateOf(Day(m));
    assert OneOfTheTwo(crontab, fields, Date(date.month, date.day, date.weekday));
  }

  lemma SomeMinuteDiffers(crontab: Crontab, fields: Fields) returns (m: int)
    requires AllFieldsValid(fields)
    requires SomeTime(fields) && BothGiven(crontab, fields) && SomeDateMeetsOne(crontab, fields)
    ensures Matches(fields, m) != MatchesBy(crontab, fields, m)
  {
    var hour, minute :| 0 <= hour < 24 && 0 <= minute < 60 && TimeAdmitted(fields, hour, minute);
    var month, day, weekday :| 1 <= month <= 12 && 1 <= day <= LONGEST[month - 1] && 0 <= weekday < 7
      && OneOfTheTwo(crontab, fields, Date(month, day, weekday));
    m := MinuteIsMet(Date(month, day, weekday), hour, minute);
    MinuteDiffersExactlyWhen(crontab, fields, m);
  }

  /** An expression means something else here than in a crontab exactly when it has a time of day, gives both
      alternatives, and some date meets only one of them. */
  lemma DiffersFromCrontabExactlyWhen(crontab: Crontab, fields: Fields)
    requires AllFieldsValid(fields)
    ensures (exists m :: Matches(fields, m) != MatchesBy(crontab, fields, m))
       <==> SomeTime(fields) && BothGiven(crontab, fields) && SomeDateMeetsOne(crontab, fields)
  {
    if m :| Matches(fields, m) != MatchesBy(crontab, fields, m) {
      DifferingMinuteShows(crontab, fields, m);
    } else if SomeTime(fields) && BothGiven(crontab, fields) && SomeDateMeetsOne(crontab, fields) {
      var m := SomeMinuteDiffers(crontab, fields);
      assert false;
    }
  }

  /** `0 0 1-31 * 1`: midnight on Mondays, but every midnight in any crontab. */
  const LISTED_DAYS: Fields := [Exactly(0), Exactly(0), [Span(Some(1), Some(31), None)], [Star], Exactly(1)]

  lemma SpanAdmitsItsRange(first: int, last: int, i: int)
    requires first <= i <= last
    ensures Admitted([Span(Some(first), Some(last), None)], first, last, i)
  {
    var parts := [Span(Some(first), Some(last), None)];
    DivisionIsUnique(i - first, 1, i - first, 0);
    assert Admits(parts[0], first, last, i);
  }

  lemma ListedDaysAreNotAnAsterisk(crontab: Crontab, m: int)
    requires m % DAY == 0
    ensures AllFieldsValid(LISTED_DAYS) && MatchesBy(crontab, LISTED_DAYS, m)
    ensures Matches(LISTED_DAYS, m) <==> DayOfWeek(m) == 1
  {
    var date := DateOf(Day(m));
    MidnightIsFirst(m);
    EveryDayIsInCalendar(Day(m));
    ExactlyAdmits(0, 0, 59, Minute(m));
    ExactlyAdmits(0, 0, 23, Hour(m));
    ExactlyAdmits(1, 0, 7, DayOfWeek(m));
    ExactlyAdmits(1, 0, 7, 7);
    SpanAdmitsItsRange(1, 31, date.day);
    StarAdmitsAll(1, 12, date.month);
  }

  lemma MidnightIsFirst(m: int)
    requires m % DAY == 0
    ensures Hour(m) == 0 && Minute(m) == 0
  {
    TimeOfDay(Day(m), 0, 0);
  }
}
