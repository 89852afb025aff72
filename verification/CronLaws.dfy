/** What the next-run search promises: in UTC and every fixed offset it is the naive rule
    "first matching second after the reference"; in every zone it never goes back, and a
    fixed-time schedule never repeats a wall time.
 */
module CronLaws {
  import opened Calendar
  import opened Cron
  import opened CronSearch
  import opened Wrappers

  // ---------------------------------------------------------------------------
  // Skipping, on wall seconds
  // ---------------------------------------------------------------------------

  /** Wall seconds the search moves on from `w` when `w` does not match. */
  ghost function SkipSeconds(s: CronSchedule, w: int): int {
    if !DayMatches(s, w / SECONDS_PER_DAY) then SECONDS_PER_DAY - w % SECONDS_PER_DAY
    else TimeSkip(s, w % SECONDS_PER_DAY)
  }

  lemma SplitSecond(w: int, day: int, sod: int)
    requires w == day * SECONDS_PER_DAY + sod && 0 <= sod < SECONDS_PER_DAY
    ensures w / SECONDS_PER_DAY == day && w % SECONDS_PER_DAY == sod
  {
  }

  lemma HourSplit(sod: int)
    requires 0 <= sod < SECONDS_PER_DAY
    ensures sod == 3600 * HourOf(sod) + 60 * MinuteOf(sod) + SecondOf(sod)
  {
  }

  lemma ClockSplit(h: int, m: int, sec: int)
    requires 0 <= h < 24 && 0 <= m < 60 && 0 <= sec < 60
    ensures var sod := 3600 * h + 60 * m + sec;
            && 0 <= sod < SECONDS_PER_DAY
            && HourOf(sod) == h && MinuteOf(sod) == m && SecondOf(sod) == sec
  {
  }

  lemma SameHour(sod: int, v: int)
    requires 0 <= sod <= v < SECONDS_PER_DAY
    requires v < sod + 3600 - 60 * MinuteOf(sod) - SecondOf(sod)
    ensures HourOf(v) == HourOf(sod)
  {
    HourSplit(sod);
    HourSplit(v);
  }

  lemma SameMinute(sod: int, v: int)
    requires 0 <= sod <= v < SECONDS_PER_DAY && v < sod + 60 - SecondOf(sod)
    ensures MinuteOf(v) == MinuteOf(sod)
  {
    HourSplit(sod);
    HourSplit(v);
    assert v / 60 == sod / 60;
  }

  /** On a matching day, the skip stays inside the day or ends at its midnight. */
  lemma TimeSkipRange(s: CronSchedule, sod: int)
    requires 0 <= sod < SECONDS_PER_DAY
    ensures 1 <= TimeSkip(s, sod) <= SECONDS_PER_DAY - sod
  {
    HourSplit(sod);
  }

  /** No hour, minute or second skip jumps over a matching time of day. */
  lemma TimeSkipSound(s: CronSchedule, sod: int, v: int)
    requires 0 <= sod <= v < SECONDS_PER_DAY && v < sod + TimeSkip(s, sod)
    requires !TimeMatches(s, sod)
    ensures !TimeMatches(s, v)
  {
    TimeSkipRange(s, sod);
    if !FieldMatches(s.minute, MinuteOf(sod)) && !FieldMatches(s.hour, HourOf(sod)) {
      SameHour(sod, v);
    } else if !FieldMatches(s.minute, MinuteOf(sod)) {
      SameMinute(sod, v);
    } else if FieldMatches(s.second, SecondOf(sod)) {
      SameHour(sod, v);
    }
  }

  /** No skip of any kind jumps over a matching second. */
  lemma SkipSound(s: CronSchedule, w: int, u: int)
    requires !Matches(s, w) && w <= u < w + SkipSeconds(s, w)
    ensures !Matches(s, u)
  {
    var day, sod := w / SECONDS_PER_DAY, w % SECONDS_PER_DAY;
    if DayMatches(s, day) {
      TimeSkipRange(s, sod);
      SplitSecond(u, day, sod + (u - w));
      TimeSkipSound(s, sod, sod + (u - w));
    } else {
      SplitSecond(u, day, sod + (u - w));
    }
  }

  // ---------------------------------------------------------------------------
  // How long the search takes
  // ---------------------------------------------------------------------------

  /** A time of day that an in-bounds schedule admits. */
  ghost function SampleTime(s: CronSchedule): (sod: int)
    requires InBounds(s)
    ensures 0 <= sod < SECONDS_PER_DAY && TimeMatches(s, sod)
  {
    var h, m, sec := Sample(s.hour, 0, 23), Sample(s.minute, 0, 59), Sample(s.second, 0, 59);
    ClockSplit(h, m, sec);
    3600 * h + 60 * m + sec
  }

  /** The first matching second from `w` on, given that `hi` matches. */
  ghost function FirstMatch(s: CronSchedule, w: int, hi: int): (t: int)
    requires w <= hi && Matches(s, hi)
    ensures w <= t <= hi && IsFirstMatch(s, w, t)
    decreases hi - w
  {
    if Matches(s, w) then w else FirstMatch(s, w + 1, hi)
  }

  ghost predicate IsFirstMatch(s: CronSchedule, w: int, t: int) {
    w <= t && Matches(s, t) && forall u :: w <= u < t ==> !Matches(s, u)
  }

  /** A matching day has a match before it ends, when entered at its midnight. */
  lemma FreshDayMatches(s: CronSchedule, day: int, t: int)
    requires InBounds(s) && DayMatches(s, day) && IsFirstMatch(s, day * SECONDS_PER_DAY, t)
    ensures t / SECONDS_PER_DAY == day
  {
    var m := day * SECONDS_PER_DAY + SampleTime(s);
    SplitSecond(m, day, SampleTime(s));
    assert Matches(s, m);
    assert t <= m;
  }

  /** Iterations still needed from `w` to the first match `t`, at most: one per remaining
      day, one per remaining second of a matching day. */
  ghost function Cost(s: CronSchedule, w: int, t: int): int {
    var day, last := w / SECONDS_PER_DAY, t / SECONDS_PER_DAY;
    (last - day)
    + (if DayMatches(s, day) then SECONDS_PER_DAY - w % SECONDS_PER_DAY else 0)
    + (if day < last then SECONDS_PER_DAY else 0)
  }

  lemma CostAt(s: CronSchedule, w: int, t: int, day: int, sod: int)
    requires w == day * SECONDS_PER_DAY + sod && 0 <= sod < SECONDS_PER_DAY
    ensures Cost(s, w, t) ==
            (t / SECONDS_PER_DAY - day) + (if DayMatches(s, day) then SECONDS_PER_DAY - sod else 0)
            + (if day < t / SECONDS_PER_DAY then SECONDS_PER_DAY else 0)
  {
    SplitSecond(w, day, sod);
  }

  lemma CostNextDay(s: CronSchedule, w: int, t: int, next: int)
    requires InBounds(s) && IsFirstMatch(s, w, t) && w < next <= t
    requires next == (w / SECONDS_PER_DAY + 1) * SECONDS_PER_DAY
    ensures Cost(s, next, t) < Cost(s, w, t)
  {
    var day := next / SECONDS_PER_DAY;
    CostAt(s, next, t, day, 0);
    if DayMatches(s, day) {
      FreshDayMatches(s, day, t);
    }
  }

  /** Each skip ends at or before the first match and uses up at least one unit of cost. */
  lemma SkipProgress(s: CronSchedule, w: int, t: int)
    requires InBounds(s) && IsFirstMatch(s, w, t) && w != t
    ensures var next := w + SkipSeconds(s, w);
            w < next && IsFirstMatch(s, next, t) && Cost(s, next, t) < Cost(s, w, t)
  {
    var day, sod := w / SECONDS_PER_DAY, w % SECONDS_PER_DAY;
    TimeSkipRange(s, sod);
    var next := w + SkipSeconds(s, w);
    if t < next {
      SkipSound(s, w, t);
    }
    if next < (day + 1) * SECONDS_PER_DAY {
      CostAt(s, next, t, day, next - day * SECONDS_PER_DAY);
    } else {
      CostNextDay(s, w, t, next);
    }
  }

  /** The first match from `w` on is less than 525600 units of cost away: a matching day
      recurs within 146097 days, and at most two matching days are scanned. */
  lemma FirstMatchNear(s: CronSchedule, w: int) returns (t: int)
    requires WellFormed(s)
    ensures IsFirstMatch(s, w, t) && 0 <= Cost(s, w, t) < MAX_ITERATIONS
  {
    var day := NextMatchingDay(s, w / SECONDS_PER_DAY);
    var m := day * SECONDS_PER_DAY + SampleTime(s);
    SplitSecond(m, day, SampleTime(s));
    t := FirstMatch(s, w, m);
  }

  // ---------------------------------------------------------------------------
  // Fixed offsets: the search is the naive rule
  // ---------------------------------------------------------------------------

  ghost predicate IsFixed(z: Zone, offset: Offset) {
    forall u :: z(u) == offset
  }

  lemma SoleElement(us: seq<int>, c: int)
    requires c in us && forall i :: 0 <= i < |us| ==> us[i] == c
    requires |us| > 1 ==> us[0] < us[1]
    ensures us == [c]
  {
  }

  lemma FixedInstants(z: Zone, offset: Offset, w: int)
    requires IsFixed(z, offset)
    ensures Instants(z, w) == [w - offset]
  {
    InstantsExact(z, w);
    var us := Instants(z, w);
    assert (w - offset) + z(w - offset) == w;
    assert w - offset in us;
    forall i | 0 <= i < |us|
      ensures us[i] == w - offset
    {
      assert us[i] in us;
    }
    SoleElement(us, w - offset);
  }

  lemma WholeSecond(k: int)
    ensures (k * NANOS) / NANOS == k && (k * NANOS) % NANOS == 0
  {
  }

  lemma FixedWall(z: Zone, offset: Offset, w: int)
    requires IsFixed(z, offset)
    ensures WallSecond(z, (w - offset) * NANOS) == w
    ensures Wall(z, (w - offset) * NANOS) == w * NANOS
  {
    WholeSecond(w - offset);
  }

  lemma FixedMidnight(z: Zone, offset: Offset, w: int)
    requires IsFixed(z, offset)
    ensures UntilNextLocalMidnight(z, (w - offset) * NANOS)
            == (SECONDS_PER_DAY - w % SECONDS_PER_DAY) * NANOS
  {
    FixedWall(z, offset, w);
    var midnight := (w / SECONDS_PER_DAY + 1) * SECONDS_PER_DAY;
    FixedInstants(z, offset, midnight);
    assert midnight - w == SECONDS_PER_DAY - w % SECONDS_PER_DAY;
  }

  /** In a fixed offset an iteration is a skip on wall seconds; the repeat guard never acts. */
  lemma FixedIterate(s: CronSchedule, z: Zone, offset: Offset, after: int, w: int)
    requires IsFixed(z, offset) && after < (w - offset) * NANOS
    ensures Iterate(s, z, after, (w - offset) * NANOS)
            == if Matches(s, w) then Found else Skip(SkipSeconds(s, w) * NANOS)
  {
    FixedWall(z, offset, w);
    FixedMidnight(z, offset, w);
    assert Wall(z, after) == after + offset * NANOS;
  }

  lemma FixedStart(z: Zone, offset: Offset, after: int)
    requires IsFixed(z, offset)
    ensures Start(z, after) == (after / NANOS + 1) * NANOS
  {
    assert (after + NANOS) / NANOS == after / NANOS + 1;
    FixedInstants(z, offset, WallSecond(z, after + NANOS));
  }

  /** The instant of wall second `w`. */
  ghost function At(offset: Offset, w: int): int {
    (w - offset) * NANOS
  }

  lemma FixedStepMove(s: CronSchedule, z: Zone, offset: Offset, after: int, step: int -> Move, w: int)
    requires IsFixed(z, offset) && IsStepper(step, s, z, after) && after < At(offset, w)
    ensures Matches(s, w) ==> step(At(offset, w)) == Found
    ensures !Matches(s, w) ==> step(At(offset, w)) == Skip(At(offset, w + SkipSeconds(s, w)) - At(offset, w))
  {
    FixedIterate(s, z, offset, after, w);
  }

  lemma FixedStep(s: CronSchedule, z: Zone, offset: Offset, after: int, step: int -> Move, w: int, t: int)
    returns (next: int)
    requires InBounds(s) && IsFixed(z, offset) && IsStepper(step, s, z, after) && after < At(offset, w)
    requires IsFirstMatch(s, w, t)
    ensures w == t ==> step(At(offset, w)) == Found
    ensures w != t ==>
              && w < next && IsFirstMatch(s, next, t) && 0 <= Cost(s, next, t) < Cost(s, w, t)
              && step(At(offset, w)) == Skip(At(offset, next) - At(offset, w))
  {
    next := w + SkipSeconds(s, w);
    if w == t {
      FixedStepMove(s, z, offset, after, step, w);
    } else {
      assert step(At(offset, w)) == Skip(At(offset, next) - At(offset, w)) by {
        FixedStepMove(s, z, offset, after, step, w);
      }
      SkipProgress(s, w, t);
      CostNonNegative(s, next, t);
    }
  }

  ghost predicate Descends(step: int -> Move, good: int -> bool, cost: int -> int, goal: int, c: int) {
    && 0 <= cost(c)
    && (c != goal ==> step(c).Skip? && good(c + step(c).nanos) && cost(c + step(c).nanos) < cost(c))
  }

  /** A search whose every step from a good instant leads to a cheaper good instant, until
      the goal, finds the goal if it can afford to. */
  lemma {:induction false} SearchReaches(
    step: int -> Move, good: int -> bool, cost: int -> int, goal: int, cur: int, iterations: nat)
    requires forall c :: good(c) ==> Descends(step, good, cost, goal, c)
    requires step(goal).Found?
    requires good(cur) && iterations + cost(cur) < MAX_ITERATIONS
    ensures Search(step, cur, iterations) == Some(goal)
    decreases MAX_ITERATIONS - iterations
  {
    assert Descends(step, good, cost, goal, cur);
    if cur != goal {
      SearchReaches(step, good, cost, goal, cur + step(cur).nanos, iterations + 1);
    }
  }

  /** Wall second of instant `c`. */
  ghost function WallOf(offset: Offset, c: int): int {
    c / NANOS + offset
  }

  lemma AtWallOf(offset: Offset, w: int)
    ensures WallOf(offset, At(offset, w)) == w
    ensures forall c :: c == At(offset, WallOf(offset, c)) <==> c % NANOS == 0
  {
    WholeSecond(w - offset);
  }

  /** On the way to first match `t`: a whole second after the reference, nothing skipped. */
  ghost predicate OnTheWay(s: CronSchedule, offset: Offset, after: int, t: int, c: int) {
    after < c && c == At(offset, WallOf(offset, c)) && IsFirstMatch(s, WallOf(offset, c), t)
  }

  lemma OnTheWayStep(s: CronSchedule, z: Zone, offset: Offset, after: int, step: int -> Move, t: int, c: int)
    requires InBounds(s) && IsFixed(z, offset) && IsStepper(step, s, z, after)
    requires OnTheWay(s, offset, after, t, c)
    ensures 0 <= Cost(s, WallOf(offset, c), t)
    ensures c != At(offset, t) ==>
              && step(c).Skip?
              && OnTheWay(s, offset, after, t, c + step(c).nanos)
              && Cost(s, WallOf(offset, c + step(c).nanos), t) < Cost(s, WallOf(offset, c), t)
  {
    var w := WallOf(offset, c);
    CostNonNegative(s, w, t);
    var next := FixedStep(s, z, offset, after, step, w, t);
    AtWallOf(offset, next);
  }

  /** The journey to first match `t` as the functions `SearchReaches` asks for. */
  ghost predicate IsJourney(
    good: int -> bool, cost: int -> int, s: CronSchedule, offset: Offset, after: int, t: int) {
    && (forall c {:trigger OnTheWay(s, offset, after, t, c)} :: good(c) == OnTheWay(s, offset, after, t, c))
    && (forall c {:trigger WallOf(offset, c)} :: cost(c) == Cost(s, WallOf(offset, c), t))
  }

  lemma JourneyStep(s: CronSchedule, z: Zone, offset: Offset, after: int, step: int -> Move, t: int,
                    good: int -> bool, cost: int -> int, c: int)
    requires InBounds(s) && IsFixed(z, offset) && IsStepper(step, s, z, after)
    requires IsJourney(good, cost, s, offset, after, t) && good(c)
    ensures Descends(step, good, cost, At(offset, t), c)
  {
    assert good(c) == OnTheWay(s, offset, after, t, c);
    OnTheWayStep(s, z, offset, after, step, t, c);
  }

  lemma JourneyEnds(s: CronSchedule, z: Zone, offset: Offset, after: int, step: int -> Move, w: int, t: int,
                    good: int -> bool, cost: int -> int)
    requires InBounds(s) && IsFixed(z, offset) && IsStepper(step, s, z, after) && after < At(offset, w)
    requires IsJourney(good, cost, s, offset, after, t)
    requires IsFirstMatch(s, w, t) && Cost(s, w, t) < MAX_ITERATIONS
    ensures good(At(offset, w)) && cost(At(offset, w)) < MAX_ITERATIONS && step(At(offset, t)).Found?
  {
    AtWallOf(offset, w);
    assert good(At(offset, w)) == OnTheWay(s, offset, after, t, At(offset, w));
    var last := FixedStep(s, z, offset, after, step, t, t);
  }

  lemma FixedSearchFinds(s: CronSchedule, z: Zone, offset: Offset, after: int, step: int -> Move, w: int, t: int,
                         good: int -> bool, cost: int -> int)
    requires InBounds(s) && IsFixed(z, offset) && IsStepper(step, s, z, after) && after < At(offset, w)
    requires IsJourney(good, cost, s, offset, after, t)
    requires IsFirstMatch(s, w, t) && Cost(s, w, t) < MAX_ITERATIONS
    ensures Search(step, At(offset, w), 0) == Some(At(offset, t))
  {
    forall c | good(c)
      ensures Descends(step, good, cost, At(offset, t), c)
    {
      JourneyStep(s, z, offset, after, step, t, good, cost, c);
    }
    JourneyEnds(s, z, offset, after, step, w, t, good, cost);
    SearchReaches(step, good, cost, At(offset, t), At(offset, w), 0);
  }

  lemma CostNonNegative(s: CronSchedule, w: int, t: int)
    requires w <= t
    ensures 0 <= Cost(s, w, t)
  {
  }

  /** Instant `u` is a whole second at which the schedule fires. */
  ghost predicate Fires(s: CronSchedule, offset: Offset, u: int) {
    u % NANOS == 0 && Matches(s, u / NANOS + offset)
  }

  /** The naive rule. */
  ghost predicate IsNextFire(s: CronSchedule, offset: Offset, after: int, t: int) {
    after < t && Fires(s, offset, t) && forall u :: after < u < t ==> !Fires(s, offset, u)
  }

  /** In UTC or any fixed offset, every schedule that parses gets the least whole second
      strictly after the reference whose fields match. It always gets one: the iteration
      cap is never reached. */
  lemma FixedOffsetExact(s: CronSchedule, z: Zone, offset: Offset, after: int)
    requires WellFormed(s) && IsFixed(z, offset)
    ensures NextRun(s, z, after).Some?
    ensures IsNextFire(s, offset, after, NextRun(s, z, after).value)
  {
    var w := after / NANOS + 1 + offset;
    var t := FixedSearchFrom(s, z, offset, after, Stepper(s, z, after), w);
    FixedStart(z, offset, after);
    FirstMatchIsNextFire(s, offset, after, w, t);
  }

  lemma FixedSearchFrom(s: CronSchedule, z: Zone, offset: Offset, after: int, step: int -> Move, w: int)
    returns (t: int)
    requires WellFormed(s) && IsFixed(z, offset) && IsStepper(step, s, z, after) && after < At(offset, w)
    ensures IsFirstMatch(s, w, t) && Search(step, At(offset, w), 0) == Some(At(offset, t))
  {
    t := FirstMatchNear(s, w);
    FixedSearchFinds(s, z, offset, after, step, w, t,
                     c => OnTheWay(s, offset, after, t, c), c => Cost(s, WallOf(offset, c), t));
  }

  lemma FirstMatchIsNextFire(s: CronSchedule, offset: Offset, after: int, w: int, t: int)
    requires w == after / NANOS + 1 + offset && IsFirstMatch(s, w, t)
    ensures IsNextFire(s, offset, after, At(offset, t))
  {
    WholeSecond(t - offset);
    forall u | after < u < At(offset, t)
      ensures !Fires(s, offset, u)
    {
      if u % NANOS == 0 {
        assert u == (u / NANOS) * NANOS;
        assert w <= u / NANOS + offset < t;
      }
    }
  }

  /** For a schedule with every field in range: the search answers "never" exactly when no
      instant ever matches. */
  lemma NeverMeansNever(s: CronSchedule, z: Zone, offset: Offset, after: int)
    requires InBounds(s) && IsFixed(z, offset)
    ensures NextRun(s, z, after).None? <==> !exists u :: Fires(s, offset, u)
  {
    ReachableDateExact(s);
    if HasReachableDate(s) {
      FixedOffsetExact(s, z, offset, after);
      assert Fires(s, offset, NextRun(s, z, after).value);
    }
    forall u | Fires(s, offset, u)
      ensures exists n :: DayMatches(s, n)
    {
      assert DayMatches(s, (u / NANOS + offset) / SECONDS_PER_DAY);
    }
  }

  /** Every text the parser accepts fires again after every instant, and on time. */
  lemma AcceptedExpressionsFire(expression: string, z: Zone, offset: Offset, after: int)
    requires Parse(expression).Success? && IsFixed(z, offset)
    ensures var s := Parse(expression).value;
            && NextRun(s, z, after).Some?
            && IsNextFire(s, offset, after, NextRun(s, z, after).value)
  {
    FixedOffsetExact(Parse(expression).value, z, offset, after);
  }

  // ---------------------------------------------------------------------------
  // Every zone, whatever its transitions
  // ---------------------------------------------------------------------------

  /** `t` lies on a whole second, or as far into one as the reference does. */
  ghost predicate SameFraction(after: int, t: int) {
    t % NANOS == 0 || t % NANOS == after % NANOS
  }

  lemma WholeSecondsKeepFraction(t: int, k: int)
    ensures (t + k * NANOS) % NANOS == t % NANOS
  {
  }

  lemma StartFollows(z: Zone, after: int)
    ensures after < Start(z, after) && SameFraction(after, Start(z, after))
  {
    var c := after + NANOS;
    var w := WallSecond(z, c);
    InstantsExact(z, w);
    assert c / NANOS + z(c / NANOS) == w;
    assert c / NANOS in Instants(z, w);
    WholeSecond(c / NANOS);
    WholeSecondsKeepFraction(after, 1);
  }

  lemma GuardFraction(z: Zone, after: int, cur: int)
    ensures (cur + (Wall(z, after) - Wall(z, cur)) + NANOS) % NANOS == after % NANOS
  {
    var k := z(after / NANOS) - z(cur / NANOS) + 1;
    WholeSecondsKeepFraction(after, k);
    assert cur + (Wall(z, after) - Wall(z, cur)) + NANOS == after + k * NANOS;
  }

  lemma MidnightFraction(z: Zone, after: int, cur: int)
    requires SameFraction(after, cur)
    ensures SameFraction(after, cur + Max(UntilNextLocalMidnight(z, cur), NANOS))
  {
    var w := WallSecond(z, cur);
    var targets := Instants(z, (w / SECONDS_PER_DAY + 1) * SECONDS_PER_DAY);
    WholeSecondsKeepFraction(cur, 1);
    WholeSecondsKeepFraction(cur, SECONDS_PER_DAY - w % SECONDS_PER_DAY);
    if targets != [] {
      WholeSecond(targets[0]);
    }
  }

  /** Minutes named outright, and the hour not `*`: such a schedule names wall-clock times. */
  predicate FixedTime(s: CronSchedule) {
    !s.minute.Any? && !s.minute.Step? && !s.hour.Any?
  }

  /** A skip keeps the fraction of the second; a stop matches, past the reference's wall time. */
  lemma IterateAnywhere(s: CronSchedule, z: Zone, after: int, cur: int)
    requires SameFraction(after, cur)
    ensures var m := Iterate(s, z, after, cur);
            && (m.Skip? ==> SameFraction(after, cur + m.nanos))
            && (m.Found? ==> Matches(s, WallSecond(z, cur)))
            && (m.Found? && FixedTime(s) ==> Wall(z, after) < Wall(z, cur))
  {
    GuardFraction(z, after, cur);
    MidnightFraction(z, after, cur);
    WholeSecondsKeepFraction(cur, TimeSkip(s, WallSecond(z, cur) % SECONDS_PER_DAY));
  }

  /** What the search promises of an answer `t`, in any zone. */
  ghost predicate GoodAnswer(s: CronSchedule, z: Zone, after: int, t: int) {
    && after < t
    && SameFraction(after, t)
    && Matches(s, WallSecond(z, t))
    && (FixedTime(s) ==> WallSecond(z, after) < WallSecond(z, t))
  }

  lemma LaterWallSecond(z: Zone, after: int, t: int)
    requires SameFraction(after, t) && Wall(z, after) < Wall(z, t)
    ensures WallSecond(z, after) < WallSecond(z, t)
  {
    WallSecondIsWall(z, after);
    WallSecondIsWall(z, t);
  }

  lemma StepAnywhere(s: CronSchedule, z: Zone, after: int, step: int -> Move, cur: int)
    requires IsStepper(step, s, z, after) && after < cur && SameFraction(after, cur)
    ensures step(cur).Found? ==> GoodAnswer(s, z, after, cur)
    ensures step(cur).Skip? ==>
              step(cur).nanos >= NANOS && SameFraction(after, cur + step(cur).nanos)
  {
    assert step(cur) == Iterate(s, z, after, cur);
    IterateAnywhere(s, z, after, cur);
    if step(cur).Found? && FixedTime(s) {
      LaterWallSecond(z, after, cur);
    }
  }

  lemma {:induction false} SearchAnywhere(
    s: CronSchedule, z: Zone, after: int, step: int -> Move, cur: int, iterations: nat)
    requires IsStepper(step, s, z, after) && after < cur && SameFraction(after, cur)
    ensures var r := Search(step, cur, iterations);
            r.Some? ==> GoodAnswer(s, z, after, r.value)
    decreases MAX_ITERATIONS - iterations
  {
    if iterations < MAX_ITERATIONS {
      StepAnywhere(s, z, after, step, cur);
      if step(cur).Skip? {
        SearchAnywhere(s, z, after, step, cur + step(cur).nanos, iterations + 1);
      }
    }
  }

  /** In every zone: an answer is later than the reference and matches every field, it lies
      on a whole second when the reference does, and a fixed-time schedule's answer shows a
      later wall clock too, so a fall-back cannot make it fire twice. */
  lemma AnswersGoForward(s: CronSchedule, z: Zone, after: int)
    ensures var r := NextRun(s, z, after);
            r.Some? ==>
              && GoodAnswer(s, z, after, r.value)
              && (!s.minute.Any? && !s.minute.Step? && !s.hour.Any? ==> WallSecond(z, after) < WallSecond(z, r.value))
  {
    StartFollows(z, after);
    SearchAnywhere(s, z, after, Stepper(s, z, after), Start(z, after), 0);
  }

  /** The other side: when the very next second matches, it is the answer in every zone,
      through a repeated hour too, unless the schedule names wall-clock times and the clock
      has gone back. */
  lemma NextSecondExact(s: CronSchedule, z: Zone, after: int)
    requires InBounds(s) && after % NANOS == 0 && Matches(s, WallSecond(z, after + NANOS))
    ensures NextRun(s, z, after) == Some(after + NANOS)
       <==> || s.minute.Any? || s.minute.Step? || s.hour.Any?
            || WallSecond(z, after) < WallSecond(z, after + NANOS)
  {
    var t := after + NANOS;
    ReachableDateExact(s);
    StartOnWholeSecond(z, after);
    var step := Stepper(s, z, after);
    assert step(t) == Iterate(s, z, after, t);
    WallSecondIsWall(z, after);
    WallSecondIsWall(z, t);
    AnswersGoForward(s, z, after);
  }

  lemma StartOnWholeSecond(z: Zone, after: int)
    requires after % NANOS == 0
    ensures Start(z, after) == after + NANOS
  {
    var c := after + NANOS;
    InstantsExact(z, WallSecond(z, c));
    assert c / NANOS + z(c / NANOS) == WallSecond(z, c);
    assert c / NANOS in Instants(z, WallSecond(z, c));
  }

  /** On a day that does not match, the search goes to the earliest instant at which the
      local date changes; where the zone skips that midnight, to where it would have been. */
  lemma MidnightSkipExact(z: Zone, t: int)
    ensures var midnight := (WallSecond(z, t) / SECONDS_PER_DAY + 1) * SECONDS_PER_DAY;
            var landing := t + UntilNextLocalMidnight(z, t);
            && (forall u :: u + z(u) == midnight ==> landing <= u * NANOS)
            && ((exists u :: u + z(u) == midnight) ==>
                  landing % NANOS == 0 && WallSecond(z, landing) == midnight)
            && ((forall u :: u + z(u) != midnight) ==>
                  landing + z(t / NANOS) * NANOS == midnight * NANOS + t % NANOS)
  {
    var w := WallSecond(z, t);
    var midnight := (w / SECONDS_PER_DAY + 1) * SECONDS_PER_DAY;
    var targets := Instants(z, midnight);
    InstantsExact(z, midnight);
    if targets == [] {
      assert t == t / NANOS * NANOS + t % NANOS;
    } else {
      WholeSecond(targets[0]);
      assert targets[0] in targets;
    }
    forall u | u + z(u) == midnight
      ensures targets != [] && targets[0] <= u
    {
      assert u in targets;
    }
  }

  /** Sent past a repeated stretch, a schedule of wall-clock times resumes one second after
      the reference's wall time, if the offset has not changed meanwhile. */
  lemma GuardLandsJustPast(s: CronSchedule, z: Zone, after: int, cur: int)
    requires !s.minute.Any? && !s.minute.Step? && !s.hour.Any?
    requires Wall(z, cur) <= Wall(z, after)
    ensures var m := Iterate(s, z, after, cur);
            && m.Skip?
            && (z((cur + m.nanos) / NANOS) == z(cur / NANOS) ==>
                  Wall(z, cur + m.nanos) == Wall(z, after) + NANOS)
  {
  }

  /** Each element is the answer computed from the one before. */
  ghost predicate IsRunSequence(s: CronSchedule, z: Zone, ts: seq<int>) {
    forall i :: 0 < i < |ts| ==> IsNextRun(s, z, ts[i - 1], ts[i])
  }

  ghost predicate IsNextRun(s: CronSchedule, z: Zone, a: int, b: int) {
    NextRun(s, z, a) == Some(b)
  }

  lemma {:induction false} Increasing(key: seq<int>, i: nat, j: nat)
    requires forall k :: 0 < k < |key| ==> key[k - 1] < key[k]
    requires i < j < |key|
    ensures key[i] < key[j]
    decreases j
  {
    if i < j - 1 {
      Increasing(key, i, j - 1);
    }
  }

  lemma NextRunGoesForward(s: CronSchedule, z: Zone, a: int, b: int)
    requires IsNextRun(s, z, a, b)
    ensures a < b
    ensures !s.minute.Any? && !s.minute.Step? && !s.hour.Any? ==> WallSecond(z, a) < WallSecond(z, b)
  {
    AnswersGoForward(s, z, a);
  }

  lemma NextRunMatches(s: CronSchedule, z: Zone, a: int, b: int)
    requires IsNextRun(s, z, a, b)
    ensures Matches(s, WallSecond(z, b))
  {
    AnswersGoForward(s, z, a);
  }

  /** The wall seconds at which a sequence of runs fires. */
  ghost function WallSeconds(z: Zone, ts: seq<int>): seq<int> {
    seq(|ts|, i requires 0 <= i < |ts| => WallSecond(z, ts[i]))
  }

  lemma InstantsIncrease(s: CronSchedule, z: Zone, ts: seq<int>, i: nat, j: nat)
    requires IsRunSequence(s, z, ts) && i < j < |ts|
    ensures ts[i] < ts[j]
  {
    forall k | 0 < k < |ts|
      ensures ts[k - 1] < ts[k]
    {
      NextRunGoesForward(s, z, ts[k - 1], ts[k]);
    }
    Increasing(ts, i, j);
  }

  lemma WallClocksIncrease(s: CronSchedule, z: Zone, ts: seq<int>, i: nat, j: nat)
    requires IsRunSequence(s, z, ts) && i < j < |ts|
    requires !s.minute.Any? && !s.minute.Step? && !s.hour.Any?
    ensures WallSecond(z, ts[i]) < WallSecond(z, ts[j])
  {
    var walls := WallSeconds(z, ts);
    forall k | 0 < k < |walls|
      ensures walls[k - 1] < walls[k]
    {
      NextRunGoesForward(s, z, ts[k - 1], ts[k]);
    }
    Increasing(walls, i, j);
  }

  /** However long a schedule runs, each run computed from the one before, and whatever the
      zone: every run matches all fields, instants strictly increase, and for a fixed-time
      schedule so do the wall clocks, so no wall second is fired on twice. */
  lemma NoWallTimeFiresTwice(s: CronSchedule, z: Zone, ts: seq<int>, i: nat, j: nat)
    requires IsRunSequence(s, z, ts) && i < j < |ts|
    ensures ts[i] < ts[j] && Matches(s, WallSecond(z, ts[j]))
    ensures !s.minute.Any? && !s.minute.Step? && !s.hour.Any? ==>
              WallSecond(z, ts[i]) < WallSecond(z, ts[j])
  {
    InstantsIncrease(s, z, ts, i, j);
    if !s.minute.Any? && !s.minute.Step? && !s.hour.Any? {
      WallClocksIncrease(s, z, ts, i, j);
    }
    NextRunMatches(s, z, ts[j - 1], ts[j]);
  }
}
