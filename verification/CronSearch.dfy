/** The next-run search: a loop over instants that skips days, hours, minutes and seconds
    which cannot match, guards against repeated wall times, and stops at an iteration cap.

    Instants are integer nanoseconds since 1970-01-01T00:00:00Z. A zone gives the offset
    from UTC in force during each UTC second.
 */
module CronSearch {
  import opened Calendar
  import opened Cron
  import opened Wrappers

  const NANOS := 1_000_000_000
  const MAX_ITERATIONS := 525600

  /** Seconds east of UTC; always less than a day. */
  type Offset = o: int | -86400 < o < 86400
  type Zone = int -> Offset

  // ---------------------------------------------------------------------------
  // Wall clocks
  // ---------------------------------------------------------------------------

  /** The local date and time at `t`, in nanoseconds. */
  function Wall(z: Zone, t: int): int {
    t + z(t / NANOS) * NANOS
  }

  /** The local date and time at `t`, in whole seconds. */
  function WallSecond(z: Zone, t: int): int {
    t / NANOS + z(t / NANOS)
  }

  lemma WallSecondIsWall(z: Zone, t: int)
    ensures Wall(z, t) == WallSecond(z, t) * NANOS + t % NANOS
    ensures Wall(z, t) / NANOS == WallSecond(z, t)
    ensures Wall(z, t) % NANOS == t % NANOS
  {
  }

  /** The UTC seconds whose local time is `w`, earliest first, with an offset of at most `most`. */
  function InstantsUpTo(z: Zone, w: int, most: int): seq<int>
    requires -86400 <= most < 86400
    decreases most + 86400
  {
    if most == -86400 then []
    else
      var later := InstantsUpTo(z, w, most - 1);
      if z(w - most) == most then [w - most] + later else later
  }

  /** `from_local_datetime`: every UTC second whose local time is `w`, earliest first. */
  function Instants(z: Zone, w: int): seq<int> {
    InstantsUpTo(z, w, 86399)
  }

  lemma {:induction false} InstantsUpToExact(z: Zone, w: int, most: int)
    requires -86400 <= most < 86400
    ensures var us := InstantsUpTo(z, w, most);
            && (forall u :: u in us ==> u >= w - most && u + z(u) == w)
            && (forall u :: u >= w - most && u + z(u) == w ==> u in us)
            && (forall i, j :: 0 <= i < j < |us| ==> us[i] < us[j])
    decreases most + 86400
  {
    if most > -86400 {
      InstantsUpToExact(z, w, most - 1);
      var later := InstantsUpTo(z, w, most - 1);
      assert forall j :: 0 <= j < |later| ==> later[j] in later;
    }
  }

  /** The list is exact, whatever the zone does: those seconds and no others, in order. */
  lemma InstantsExact(z: Zone, w: int)
    ensures forall u :: u in Instants(z, w) <==> u + z(u) == w
    ensures forall i, j :: 0 <= i < j < |Instants(z, w)| ==> Instants(z, w)[i] < Instants(z, w)[j]
  {
    InstantsUpToExact(z, w, 86399);
  }

  function Max(a: int, b: int): int {
    if a < b then b else a
  }

  /** Nanoseconds from `t` to the next local midnight, or to where it would be on a day of
      24 hours when the zone skips it. */
  function UntilNextLocalMidnight(z: Zone, t: int): int {
    var w := WallSecond(z, t);
    var midnight := (w / SECONDS_PER_DAY + 1) * SECONDS_PER_DAY;
    var targets := Instants(z, midnight);
    if targets == [] then (SECONDS_PER_DAY - w % SECONDS_PER_DAY) * NANOS
    else targets[0] * NANOS - t
  }

  /** One second after the reference, cut to the whole second unless that local time is
      ambiguous (chrono's `with_nanosecond` answers `None` then). */
  function Start(z: Zone, after: int): int {
    var c := after + NANOS;
    var us := Instants(z, WallSecond(z, c));
    if |us| == 1 then us[0] * NANOS else c
  }

  // ---------------------------------------------------------------------------
  // The schedule on a wall clock
  // ---------------------------------------------------------------------------

  function HourOf(sod: int): (h: Byte)
    requires 0 <= sod < SECONDS_PER_DAY
    ensures h < 24
  {
    sod / 3600
  }

  function MinuteOf(sod: int): (m: Byte)
    requires 0 <= sod < SECONDS_PER_DAY
    ensures m < 60
  {
    sod / 60 % 60
  }

  function SecondOf(sod: int): (s: Byte)
    requires 0 <= sod < SECONDS_PER_DAY
    ensures s < 60
  {
    sod % 60
  }

  predicate TimeMatches(s: CronSchedule, sod: int)
    requires 0 <= sod < SECONDS_PER_DAY
  {
    && FieldMatches(s.second, SecondOf(sod))
    && FieldMatches(s.minute, MinuteOf(sod))
    && FieldMatches(s.hour, HourOf(sod))
  }

  /** The naive rule: every field matches wall second `w`. */
  ghost predicate Matches(s: CronSchedule, w: int) {
    DayMatches(s, w / SECONDS_PER_DAY) && TimeMatches(s, w % SECONDS_PER_DAY)
  }

  /** Fires on real time through a repeated hour. */
  predicate IntervalLike(s: CronSchedule) {
    s.minute.Any? || s.minute.Step? || s.hour.Any?
  }

  /** Seconds to skip on a matching day when the time does not match. */
  function TimeSkip(s: CronSchedule, sod: int): (k: int)
    requires 0 <= sod < SECONDS_PER_DAY
  {
    var minute := MinuteOf(sod);
    var second := SecondOf(sod);
    var step :=
      if !FieldMatches(s.minute, minute) && !FieldMatches(s.hour, HourOf(sod)) then 3600 - minute * 60 - second
      else if !FieldMatches(s.minute, minute) then 60 - second
      else if !FieldMatches(s.second, second) then 1
      else 3600 - minute * 60 - second;
    Max(step, 1)
  }

  // ---------------------------------------------------------------------------
  // The search as a function
  // ---------------------------------------------------------------------------

  /** What one iteration does at instant `cur`: stop there, or move on. */
  datatype Move = Found | Skip(nanos: int)

  ghost function Iterate(s: CronSchedule, z: Zone, after: int, cur: int): (m: Move)
    ensures m.Skip? ==> m.nanos >= NANOS
  {
    if !IntervalLike(s) && Wall(z, cur) <= Wall(z, after) then
      Skip(Wall(z, after) - Wall(z, cur) + NANOS)
    else
      var w := WallSecond(z, cur);
      if !DayMatches(s, w / SECONDS_PER_DAY) then
        Skip(Max(UntilNextLocalMidnight(z, cur), NANOS))
      else if TimeMatches(s, w % SECONDS_PER_DAY) then Found
      else Skip(TimeSkip(s, w % SECONDS_PER_DAY) * NANOS)
  }

  /** Iterating `step` from `cur` until it stops, or until the cap. */
  ghost function Search(step: int -> Move, cur: int, iterations: nat): Option<int>
    decreases MAX_ITERATIONS - iterations
  {
    if iterations >= MAX_ITERATIONS then None
    else
      match step(cur)
      case Found => Some(cur)
      case Skip(nanos) => Search(step, cur + nanos, iterations + 1)
  }

  ghost function Stepper(s: CronSchedule, z: Zone, after: int): (step: int -> Move)
    ensures IsStepper(step, s, z, after)
  {
    t => Iterate(s, z, after, t)
  }

  ghost predicate IsStepper(step: int -> Move, s: CronSchedule, z: Zone, after: int) {
    forall t {:trigger Iterate(s, z, after, t)} :: step(t) == Iterate(s, z, after, t)
  }

  ghost function NextRun(s: CronSchedule, z: Zone, after: int): Option<int> {
    if !HasReachableDate(s) then None else Search(Stepper(s, z, after), Start(z, after), 0)
  }

  method ReadDate(day: int) returns (d: Date)
    ensures d == DateOf(day)
  {
    d := CivilDate(day);
    CivilDateIsDate(day);
  }

  /** One pass through the loop body at `current`. */
  method TryInstant(s: CronSchedule, z: Zone, after: int, current: int, ghost step: int -> Move)
    returns (m: Move)
    requires IsStepper(step, s, z, after)
    ensures m == step(current)
  {
    assert step(current) == Iterate(s, z, after, current);
    if !IntervalLike(s) {
      var afterWall, currentWall := Wall(z, after), Wall(z, current);
      if currentWall <= afterWall {
        return Skip((afterWall - currentWall) + NANOS);
      }
    }
    var wall := WallSecond(z, current);
    var day, sod := wall / SECONDS_PER_DAY, wall % SECONDS_PER_DAY;
    var date := ReadDate(day);
    if !DateFieldsMatch(s, date.month, date.day, Weekday(day)) {
      return Skip(Max(UntilNextLocalMidnight(z, current), NANOS));
    }
    if TimeMatches(s, sod) {
      return Found;
    }
    m := Skip(TimeSkip(s, sod) * NANOS);
  }

  /** The search loop, from `start`. */
  method Scan(s: CronSchedule, z: Zone, after: int, start: int, ghost step: int -> Move)
    returns (r: Option<int>)
    requires IsStepper(step, s, z, after)
    ensures r == Search(step, start, 0)
  {
    var current := start;
    var iterations := 0;
    while iterations < MAX_ITERATIONS
      invariant 0 <= iterations <= MAX_ITERATIONS
      invariant Search(step, start, 0) == Search(step, current, iterations)
    {
      var move := TryInstant(s, z, after, current, step);
      if move.Found? {
        return Some(current);
      }
      current := current + move.nanos;
      iterations := iterations + 1;
    }
    r := None;
  }

  method NextRunAfter(s: CronSchedule, z: Zone, after: int) returns (r: Option<int>)
    ensures r == NextRun(s, z, after)
  {
    if !HasReachableDate(s) {
      r := None;
    } else {
      r := Scan(s, z, after, Start(z, after), Stepper(s, z, after));
    }
  }
}
