/** Cron expressions: the fields, the hand-written parser, and the rule that says on
    which calendar days a schedule fires.
 */
module Cron {
  import opened Calendar
  import opened Texts
  import opened Wrappers

  /** Rust's `u8`. */
  type Byte = x: int | 0 <= x < 256

  datatype CronField =
    | Any
    | Value(v: Byte)
    | Range(lo: Byte, hi: Byte)
    | Step(step: Byte, min: Byte)
    | List(values: seq<Byte>)

  datatype CronSchedule = CronSchedule(
    second: CronField,
    minute: CronField,
    hour: CronField,
    dayOfMonth: CronField,
    month: CronField,
    dayOfWeek: CronField)

  datatype CronError =
    | WrongFieldCount(got: nat)
    | InvalidStep(text: string)
    | ZeroStep
    | StepTooLarge(step: Byte, max: Byte)
    | InvalidRange(text: string)
    | InvalidRangeStart(text: string)
    | InvalidRangeEnd(text: string)
    | RangeOutOfBounds(lo: Byte, hi: Byte)
    | InvalidListValue(text: string)
    | ListValueOutOfBounds(v: Byte)
    | InvalidValue(text: string)
    | ValueOutOfBounds(v: Byte)
    | UnreachableDate

  // ---------------------------------------------------------------------------
  // Matching
  // ---------------------------------------------------------------------------

  /** Whether a field admits a value. (`is_multiple_of(0)` holds of 0 only.) */
  predicate FieldMatches(field: CronField, value: Byte) {
    match field
    case Any => true
    case Value(v) => v == value
    case Range(lo, hi) => lo <= value <= hi
    case Step(step, min) =>
      value >= min && (if step == 0 then value == min else (value - min) % step == 0)
    case List(values) => value in values
  }

  /** Vixie cron: a field that starts with `*`, steps included, is unrestricted. */
  predicate Restricted(field: CronField) {
    !field.Any? && !field.Step?
  }

  /** Sunday is written 0 or 7. */
  predicate WeekdayMatches(field: CronField, weekday: Byte) {
    FieldMatches(field, weekday) || (weekday == 0 && FieldMatches(field, 7))
  }

  /** Day-of-month and day-of-week: either, when both are restricted; otherwise both. */
  predicate DateFieldsMatch(s: CronSchedule, month: Byte, day: Byte, weekday: Byte) {
    var domMatch := FieldMatches(s.dayOfMonth, day);
    var dowMatch := WeekdayMatches(s.dayOfWeek, weekday);
    var dayMatches :=
      if Restricted(s.dayOfMonth) && Restricted(s.dayOfWeek)
      then domMatch || dowMatch
      else domMatch && dowMatch;
    dayMatches && FieldMatches(s.month, month)
  }

  /** The syntactic test for "some calendar date can ever match". */
  predicate HasReachableDate(s: CronSchedule) {
    !Restricted(s.dayOfMonth) || Restricted(s.dayOfWeek)
    || exists month: Byte :: 1 <= month <= 12 && FieldMatches(s.month, month) && AnyDayMatches(s.dayOfMonth, month)
  }

  predicate AnyDayMatches(dayOfMonth: CronField, month: Byte)
    requires 1 <= month <= 12
  {
    exists day: Byte :: 1 <= day <= LongestMonth(month) && FieldMatches(dayOfMonth, day)
  }

  /** Whether day number `n` is one of the schedule's days. */
  ghost predicate DayMatches(s: CronSchedule, n: int) {
    DateFieldsMatch(s, DateOf(n).month, DateOf(n).day, Weekday(n))
  }

  // ---------------------------------------------------------------------------
  // What the parser guarantees
  // ---------------------------------------------------------------------------

  predicate FieldInBounds(field: CronField, min: Byte, max: Byte) {
    match field
    case Any => true
    case Value(v) => min <= v <= max
    case Range(lo, hi) => min <= lo <= hi <= max
    case Step(step, from) => from == min && 1 <= step <= max
    case List(values) => |values| >= 2 && forall i :: 0 <= i < |values| ==> min <= values[i] <= max
  }

  predicate InBounds(s: CronSchedule) {
    && FieldInBounds(s.second, 0, 59)
    && FieldInBounds(s.minute, 0, 59)
    && FieldInBounds(s.hour, 0, 23)
    && FieldInBounds(s.dayOfMonth, 1, 31)
    && FieldInBounds(s.month, 1, 12)
    && FieldInBounds(s.dayOfWeek, 0, 7)
  }

  predicate WellFormed(s: CronSchedule) {
    InBounds(s) && HasReachableDate(s)
  }

  /** A value that an in-bounds field admits. */
  function Sample(field: CronField, min: Byte, max: Byte): (v: Byte)
    requires min <= max && FieldInBounds(field, min, max)
    ensures min <= v <= max && FieldMatches(field, v)
    ensures !Restricted(field) ==> v == min
  {
    match field
    case Any => min
    case Value(v) => v
    case Range(lo, _) => lo
    case Step(step, _) => assert 0 % step == 0; min
    case List(values) => values[0]
  }

  /** The weekday, counted from Sunday, of a day-of-week value. */
  function AsWeekday(v: Byte): (w: Byte)
    requires v <= 7
    ensures 0 <= w < 7
  {
    if v == 7 then 0 else v
  }

  /** A reachable schedule has a date: the day-of-month in some year meets the weekday. */
  lemma ReachableHasDay(s: CronSchedule) returns (n: int)
    requires WellFormed(s)
    ensures DayMatches(s, n)
  {
    var weekday := AsWeekday(Sample(s.dayOfWeek, 0, 7));
    assert WeekdayMatches(s.dayOfWeek, weekday);
    var month: Byte := Sample(s.month, 1, 12);
    var day: Byte := 1;
    if Restricted(s.dayOfMonth) && !Restricted(s.dayOfWeek) {
      month :| 1 <= month <= 12 && FieldMatches(s.month, month) && AnyDayMatches(s.dayOfMonth, month);
      day :| 1 <= day <= LongestMonth(month) && FieldMatches(s.dayOfMonth, day);
    } else if !Restricted(s.dayOfMonth) {
      assert Sample(s.dayOfMonth, 1, 31) == 1;
    }
    n := EveryDateMeetsEveryWeekday(month, day, weekday);
  }

  /** The syntactic test is exact: it holds if and only if some Gregorian date matches. */
  lemma ReachableDateExact(s: CronSchedule)
    requires InBounds(s)
    ensures HasReachableDate(s) <==> exists n :: DayMatches(s, n)
  {
    if HasReachableDate(s) {
      var n := ReachableHasDay(s);
    }
    forall n | DayMatches(s, n)
      ensures HasReachableDate(s)
    {
      var month: Byte, day: Byte := DateOf(n).month, DateOf(n).day;
      if Restricted(s.dayOfMonth) && !Restricted(s.dayOfWeek) {
        assert FieldMatches(s.dayOfMonth, day);
        assert day <= LongestMonth(month);
        assert AnyDayMatches(s.dayOfMonth, month);
      }
    }
  }

  /** A schedule's days come back within 400 years, after any day. */
  lemma NextMatchingDay(s: CronSchedule, from: int) returns (n: int)
    requires WellFormed(s)
    ensures from < n <= from + CYCLE_DAYS && DayMatches(s, n)
  {
    var some := ReachableHasDay(s);
    RecursWithinCycle(some, from);
    n := NextCongruent(some, from);
  }

  // ---------------------------------------------------------------------------
  // Parsing
  // ---------------------------------------------------------------------------

  /** Unicode `White_Space`, which `split_whitespace` splits on. */
  predicate IsWhitespace(c: char) {
    var x := c as int;
    || 0x9 <= x <= 0xD || x == 0x20 || x == 0x85 || x == 0xA0 || x == 0x1680
    || 0x2000 <= x <= 0x200A || x == 0x2028 || x == 0x2029 || x == 0x202F
    || x == 0x205F || x == 0x3000
  }

  function WordLength(s: string): (k: nat)
    ensures k <= |s|
    ensures forall i :: 0 <= i < k ==> !IsWhitespace(s[i])
    ensures k < |s| ==> IsWhitespace(s[k])
  {
    if s == [] || IsWhitespace(s[0]) then 0 else 1 + WordLength(s[1..])
  }

  function SplitWhitespace(s: string): (words: seq<string>)
    ensures forall w :: w in words ==> w != [] && forall i :: 0 <= i < |w| ==> !IsWhitespace(w[i])
    decreases |s|
  {
    if s == [] then []
    else if IsWhitespace(s[0]) then SplitWhitespace(s[1..])
    else
      var k := WordLength(s);
      [s[..k]] + SplitWhitespace(s[k..])
  }

  predicate IsDigit(c: char) {
    '0' <= c <= '9'
  }

  predicate AllDigits(s: string) {
    forall i :: 0 <= i < |s| ==> IsDigit(s[i])
  }

  function DigitsValue(s: string): nat
    requires AllDigits(s)
  {
    if s == [] then 0
    else 10 * DigitsValue(s[..|s| - 1]) + (s[|s| - 1] as int - '0' as int)
  }

  /** `str::parse::<u8>()`: an optional `+`, then decimal digits, at most 255. */
  function ParseByte(s: string): Option<Byte> {
    var digits := if s != [] && s[0] == '+' then s[1..] else s;
    if digits == [] || !AllDigits(digits) then None
    else if DigitsValue(digits) > 255 then None
    else Some(DigitsValue(digits))
  }

  function ParseBytes(pieces: seq<string>): (r: Option<seq<Byte>>)
    ensures r.Some? ==> |r.value| == |pieces|
  {
    if pieces == [] then Some([])
    else
      match (ParseByte(pieces[0]), ParseBytes(pieces[1..]))
      case (Some(v), Some(rest)) => Some([v] + rest)
      case _ => None
  }

  function FirstOutOfBounds(values: seq<Byte>, min: Byte, max: Byte): (r: Option<Byte>)
    ensures r.None? <==> forall i :: 0 <= i < |values| ==> min <= values[i] <= max
  {
    if values == [] then None
    else if values[0] < min || values[0] > max then Some(values[0])
    else FirstOutOfBounds(values[1..], min, max)
  }

  // A step field, given the text after its `*/`.
  function ParseStep(text: string, min: Byte, max: Byte): (r: Result<CronField, CronError>)
    ensures r.Success? ==> FieldInBounds(r.value, min, max)
  {
    match ParseByte(text)
    case None => Failure(InvalidStep(text))
    case Some(step) =>
      if step == 0 then Failure(ZeroStep)
      else if step > max then Failure(StepTooLarge(step, max))
      else Success(Step(step, min))
  }

  /** `A-B`, given the pieces between dashes. */
  function ParseRange(field: string, parts: seq<string>, min: Byte, max: Byte): (r: Result<CronField, CronError>)
    ensures r.Success? ==> FieldInBounds(r.value, min, max)
  {
    if |parts| != 2 then Failure(InvalidRange(field))
    else
      match (ParseByte(parts[0]), ParseByte(parts[1]))
      case (None, _) => Failure(InvalidRangeStart(parts[0]))
      case (_, None) => Failure(InvalidRangeEnd(parts[1]))
      case (Some(lo), Some(hi)) =>
        if lo > hi || lo < min || hi > max then Failure(RangeOutOfBounds(lo, hi))
        else Success(Range(lo, hi))
  }

  /** `A,B,...`, given the pieces between commas. */
  function ParseList(field: string, parts: seq<string>, min: Byte, max: Byte): (r: Result<CronField, CronError>)
    requires |parts| >= 2
    ensures r.Success? ==> FieldInBounds(r.value, min, max)
  {
    match ParseBytes(parts)
    case None => Failure(InvalidListValue(field))
    case Some(values) =>
      match FirstOutOfBounds(values, min, max)
      case Some(v) => Failure(ListValueOutOfBounds(v))
      case None => Success(List(values))
  }

  function ParseField(field: string, min: Byte, max: Byte): (r: Result<CronField, CronError>)
    ensures r.Success? ==> FieldInBounds(r.value, min, max)
  {
    if field == "*" then Success(Any)
    else if |field| >= 2 && field[..2] == "*/" then ParseStep(field[2..], min, max)
    else if '-' in field then ParseRange(field, Split(field, '-'), min, max)
    else if ',' in field then ParseList(field, Split(field, ','), min, max)
    else
      match ParseByte(field)
      case None => Failure(InvalidValue(field))
      case Some(v) =>
        if v < min || v > max then Failure(ValueOutOfBounds(v)) else Success(Value(v))
  }

  /** Six fields, seconds first. */
  function ParseFields(parts: seq<string>): (r: Result<CronSchedule, CronError>)
    requires |parts| == 6
    ensures r.Success? ==> WellFormed(r.value)
  {
    var second :- ParseField(parts[0], 0, 59);
    var minute :- ParseField(parts[1], 0, 59);
    var hour :- ParseField(parts[2], 0, 23);
    var dayOfMonth :- ParseField(parts[3], 1, 31);
    var month :- ParseField(parts[4], 1, 12);
    var dayOfWeek :- ParseField(parts[5], 0, 7);
    var schedule := CronSchedule(second, minute, hour, dayOfMonth, month, dayOfWeek);
    if !HasReachableDate(schedule) then Failure(UnreachableDate) else Success(schedule)
  }

  /** Six fields, or five with the seconds left out. */
  function ParseWords(given: seq<string>): (r: Result<CronSchedule, CronError>)
    ensures r.Success? ==> WellFormed(r.value)
  {
    var parts := if |given| == 5 then ["0"] + given else given;
    if |parts| != 6 then Failure(WrongFieldCount(|parts|)) else ParseFields(parts)
  }

  /** Whatever the text, an accepted expression has every field in its range and names a
      date that exists. */
  function Parse(expression: string): (r: Result<CronSchedule, CronError>)
    ensures r.Success? ==> WellFormed(r.value)
  {
    ParseWords(SplitWhitespace(expression))
  }
}
