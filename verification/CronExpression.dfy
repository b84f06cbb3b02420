/**
 An expanded cron expression and what it means for an instant to match it.

 `Matches` is the reference semantics: it tests every field of one instant and
 knows nothing about the order or the jumps of the search.
 */
module CronExpression {
  import opened Calendar

  /** A field without `l`: either `*` or an ascending list of numbers. */
  datatype Field = Star | Entries(values: seq<int>)

  /** The day-of-month field; `last` records the entry `l`. */
  datatype DayField = AnyDay | Days(values: seq<int>, last: bool)

  /** `n` of a `#n` weekday entry, or the `l` of an `l` weekday entry. */
  datatype Ordinal = Nth(n: int) | Last

  /** The expanded form of an expression with 5, 6 (seconds) or 7 (seconds and years) columns. */
  datatype Expression = Expression(
    columns: int,
    minute: Field, hour: Field, day: DayField, month: Field, weekday: Field,
    second: Field, year: Field,
    nth: map<int, set<Ordinal>>)

  const UNIX_COLUMNS := 5
  const YEAR_COLUMNS := 7

  predicate Ascending(values: seq<int>) {
    forall i, j :: 0 <= i < j < |values| ==> values[i] < values[j]
  }

  predicate Within(values: seq<int>, low: int, high: int) {
    forall i :: 0 <= i < |values| ==> low <= values[i] <= high
  }

  predicate WellFormedField(f: Field, low: int, high: int) {
    f.Star? || (f.values != [] && Ascending(f.values) && Within(f.values, low, high))
  }

  predicate WellFormedDay(f: DayField) {
    f.AnyDay? || ((f.values != [] || f.last) && Ascending(f.values) && Within(f.values, 1, 31))
  }

  /** The shape that expansion guarantees: sorted, non-empty and inside the field's range. */
  predicate WellFormed(e: Expression) {
    && 5 <= e.columns <= 7
    && WellFormedField(e.minute, 0, 59)
    && WellFormedField(e.hour, 0, 23)
    && WellFormedDay(e.day)
    && WellFormedField(e.month, 1, 12)
    && WellFormedField(e.weekday, 0, 7)
    && WellFormedField(e.second, 0, 59)
    && WellFormedField(e.year, 1970, 2099)
    && (forall w :: w in e.nth ==> 0 <= w <= 7)
    && (forall w, o :: w in e.nth && o in e.nth[w] && o.Nth? ==> 1 <= o.n <= 5)
  }

  predicate Allows(f: Field, x: int) {
    f.Star? || x in f.values
  }

  predicate DayAllowed(f: DayField, day: int, length: int) {
    f.AnyDay? || day in f.values || (f.last && day == length)
  }

  /** `day` is the occurrence `o` of its weekday in a month of `length` days. */
  predicate IsOccurrence(day: int, length: int, o: Ordinal) {
    match o
    case Nth(n) => (day - 1) / 7 + 1 == n
    case Last => day + 7 > length
  }

  predicate NthAllowed(nth: map<int, set<Ordinal>>, weekday: int, day: int, length: int) {
    exists w :: w in nth && w % 7 == weekday && exists o :: o in nth[w] && IsOccurrence(day, length, o)
  }

  predicate YearMatches(e: Expression, t: nat) {
    e.columns == YEAR_COLUMNS ==> Allows(e.year, YearAt(t))
  }

  predicate MonthMatches(e: Expression, t: nat) {
    Allows(e.month, MonthAt(t))
  }

  predicate DayMatches(e: Expression, t: nat) {
    DayAllowed(e.day, DayAt(t), DaysInMonth(YearAt(t), MonthAt(t)))
  }

  /** Weekday lists are ignored as soon as there is a `#` or `l` weekday entry. */
  predicate WeekdayMatches(e: Expression, t: nat) {
    if e.nth == map[] then Allows(e.weekday, WeekdayAt(t))
    else NthAllowed(e.nth, WeekdayAt(t), DayAt(t), DaysInMonth(YearAt(t), MonthAt(t)))
  }

  predicate SecondMatches(e: Expression, t: nat) {
    if e.columns == UNIX_COLUMNS then SecondAt(t) == 0 else Allows(e.second, SecondAt(t))
  }

  /** Every field accepts the instant. */
  predicate Matches(e: Expression, t: nat) {
    && YearMatches(e, t)
    && MonthMatches(e, t)
    && DayMatches(e, t)
    && WeekdayMatches(e, t)
    && Allows(e.hour, HourAt(t))
    && Allows(e.minute, MinuteAt(t))
    && SecondMatches(e, t)
  }
}
