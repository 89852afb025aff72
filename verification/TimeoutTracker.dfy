/** When timed-out Redis calls mean that the connection is dead.

    Times are milliseconds. The tracker asks for a new connection after three timeouts in a
    row, and never twice within a second. Calls run concurrently: the count is an atomic of its
    own, the time of the last reconnect is behind a lock, and a call that has counted its
    timeout may be overtaken by any others before it takes the lock.
 */
module TimeoutTracking {
  import opened Wrappers

  const TIMEOUTS_BEFORE_RECONNECT := 3
  const MIN_RECONNECT_INTERVAL := 1000

  /** `locked` while the holder of the lock has granted a reconnect and not yet cleared the
      count. */
  datatype Tracker = Tracker(inARow: nat, lastReconnect: Option<int>, locked: bool)

  datatype Event =
    | Answered                              // the count is cleared
    | Counted(now: int)                     // a call timed out at `now` and counts itself
    | Asked(now: int, counted: nat)         // the call counted at that event takes the lock
    | HealthCheckFailed(now: int)           // takes the lock without counting
    | Cleared                               // the holder of the lock clears the count

  /** Time since `at`, 0 when the clock reads earlier. */
  function Since(at: int, now: int): int {
    if now < at then 0 else now - at
  }

  predicate TooSoon(t: Tracker, now: int) {
    t.lastReconnect.Some? && Since(t.lastReconnect.value, now) < MIN_RECONNECT_INTERVAL
  }

  /** Whether the event grants a reconnect. */
  predicate Reconnects(t: Tracker, e: Event) {
    (e.Asked? || e.HealthCheckFailed?) && !TooSoon(t, e.now)
  }

  function Next(t: Tracker, e: Event): Tracker {
    match e
    case Answered => t.(inARow := 0)
    case Counted(_) => t.(inARow := t.inARow + 1)
    case Asked(now, _) => if TooSoon(t, now) then t else t.(lastReconnect := Some(now), locked := true)
    case HealthCheckFailed(now) => if TooSoon(t, now) then t else t.(lastReconnect := Some(now), locked := true)
    case Cleared => t.(inARow := 0, locked := false)
  }

  class TimeoutTracker {
    var inARow: nat
    var lastReconnect: Option<int>
    var locked: bool

    function State(): Tracker
      reads this
    {
      Tracker(inARow, lastReconnect, locked)
    }

    constructor ()
      ensures State() == Tracker(0, None, false)
    {
      inARow, lastReconnect, locked := 0, None, false;
    }

    method Answer()
      modifies this
      ensures State() == Next(old(State()), Answered)
    {
      if inARow != 0 {
        inARow := 0;
      }
    }

    /** Counts a timeout; the call goes on to the lock from the third in a row on. */
    method Count(now: int) returns (dead: bool)
      modifies this
      ensures State() == Next(old(State()), Counted(now))
      ensures dead <==> old(inARow) >= 2
    {
      inARow := inARow + 1;
      dead := inARow >= TIMEOUTS_BEFORE_RECONNECT;
    }

    /** Under the lock: grants a reconnect unless one happened within the interval, and then
        starts the count again. */
    method ReconnectDue(now: int) returns (due: bool)
      requires !locked
      modifies this
      ensures due == Reconnects(old(State()), HealthCheckFailed(now))
      ensures var granted := Next(old(State()), HealthCheckFailed(now));
              State() == if due then Next(granted, Cleared) else granted
    {
      if lastReconnect.Some? && Since(lastReconnect.value, now) < MIN_RECONNECT_INTERVAL {
        return false;
      }
      lastReconnect := Some(now);
      locked := true;
      inARow := 0;
      locked := false;
      due := true;
    }

    /** A timed-out call that nothing overtakes. */
    method TimedOut(now: int) returns (reconnect: bool)
      requires !locked
      modifies this
      ensures var counted := Next(old(State()), Counted(now));
              && (reconnect <==> old(inARow) >= 2 && !(old(lastReconnect).Some? && now - old(lastReconnect).value < 1000))
              && State() == if reconnect then Tracker(0, Some(now), false) else counted
    {
      var dead := Count(now);
      reconnect := false;
      if dead {
        reconnect := ReconnectDue(now);
      }
    }
  }

  // ---------------------------------------------------------------------------
  // Runs
  // ---------------------------------------------------------------------------

  /** The tracker after the first `n` events. */
  ghost function After(es: seq<Event>, n: nat): Tracker
    requires n <= |es|
  {
    if n == 0 then Tracker(0, None, false) else Next(After(es, n - 1), es[n - 1])
  }

  ghost predicate ReconnectsAt(es: seq<Event>, i: nat)
    requires i < |es|
  {
    Reconnects(After(es, i), es[i])
  }

  /** What the counter returned to the call counted at `i`. */
  ghost function CountAt(es: seq<Event>, i: nat): nat
    requires i < |es|
  {
    After(es, i).inARow + 1
  }

  /** The event may happen after those before it: locks exclude, and a call takes the lock after
      its own count told it to. */
  ghost predicate Possible(es: seq<Event>, k: nat)
    requires k < |es|
  {
    match es[k]
    case Answered => true
    case Counted(_) => true
    case Asked(now, i) =>
      && !After(es, k).locked
      && i < k && es[i] == Counted(now) && CountAt(es, i) >= TIMEOUTS_BEFORE_RECONNECT
    case HealthCheckFailed(_) => !After(es, k).locked
    case Cleared => After(es, k).locked
  }

  /** Any interleaving of calls. */
  ghost predicate IsRun(es: seq<Event>) {
    forall k :: 0 <= k < |es| ==> Possible(es, k)
  }

  /** The last reconnect on record is at least as late as any reconnect so far. */
  lemma {:induction false} LastReconnectCovers(es: seq<Event>, i: nat, n: nat)
    requires i < n <= |es| && ReconnectsAt(es, i)
    ensures After(es, n).lastReconnect.Some? && After(es, n).lastReconnect.value >= es[i].now
  {
    if i < n - 1 {
      LastReconnectCovers(es, i, n - 1);
    }
  }

  /** Two reconnects are at least a second apart, in every run, whatever the clock does. */
  lemma ReconnectsAreSpaced(es: seq<Event>, i: nat, j: nat)
    requires i < j < |es| && ReconnectsAt(es, i) && ReconnectsAt(es, j)
    ensures es[j].now >= es[i].now + 1000
  {
    LastReconnectCovers(es, i, j);
  }

  /** The time on record is that of the latest reconnect. */
  ghost predicate IsLatestReconnect(es: seq<Event>, r: nat, n: nat)
    requires n <= |es|
  {
    r < n && ReconnectsAt(es, r) && forall k :: r < k < n ==> !ReconnectsAt(es, k)
  }

  lemma {:induction false} LatestReconnect(es: seq<Event>, n: nat)
    requires n <= |es|
    ensures match After(es, n).lastReconnect
            case Some(at) => exists r: nat :: IsLatestReconnect(es, r, n) && es[r].now == at
            case None => forall k :: 0 <= k < n ==> !ReconnectsAt(es, k)
  {
    if n > 0 {
      LatestReconnect(es, n - 1);
      if ReconnectsAt(es, n - 1) {
        assert IsLatestReconnect(es, n - 1, n);
      } else if After(es, n).lastReconnect.Some? {
        var r: nat :| IsLatestReconnect(es, r, n - 1) && es[r].now == After(es, n).lastReconnect.value;
        assert IsLatestReconnect(es, r, n);
      }
    }
  }

  /** Nothing between `from` and `end` clears the count. */
  ghost predicate Silent(es: seq<Event>, from: nat, end: nat)
    requires from <= end <= |es|
  {
    forall k :: from <= k < end ==> !es[k].Answered? && !es[k].Cleared?
  }

  ghost function Timeouts(es: seq<Event>, from: nat, end: nat): nat
    requires from <= end <= |es|
    decreases end
  {
    if from == end then 0 else Timeouts(es, from, end - 1) + if es[end - 1].Counted? then 1 else 0
  }

  /** The count is the number of timeouts since it was last cleared. */
  lemma {:induction false} MaximalStreak(es: seq<Event>, n: nat) returns (from: nat)
    requires n <= |es|
    ensures from <= n && Silent(es, from, n) && After(es, n).inARow == Timeouts(es, from, n)
    ensures from == 0 || es[from - 1].Answered? || es[from - 1].Cleared?
  {
    if n == 0 {
      from := 0;
    } else {
      from := MaximalStreak(es, n - 1);
      if es[n - 1].Answered? || es[n - 1].Cleared? {
        from := n;
      }
    }
  }

  /** A reconnect was granted less than a second before `now`, and none since. */
  ghost predicate JustReconnected(es: seq<Event>, k: nat, now: int)
    requires k <= |es|
  {
    exists r: nat :: IsLatestReconnect(es, r, k) && Since(es[r].now, now) < MIN_RECONNECT_INTERVAL
  }

  /** Whatever overtakes it, a timed-out call takes the lock only if it was at least the third
      timeout since the count was last cleared; it is then granted a reconnect exactly when
      the latest one, as of then, is at least a second old. */
  lemma TimeoutReconnectExact(es: seq<Event>, k: nat) returns (from: nat)
    requires IsRun(es) && k < |es| && es[k].Asked?
    ensures from <= es[k].counted < k && Silent(es, from, es[k].counted)
    ensures from == 0 || es[from - 1].Answered? || es[from - 1].Cleared?
    ensures Timeouts(es, from, es[k].counted) >= 2
    ensures ReconnectsAt(es, k) <==> !JustReconnected(es, k, es[k].now)
  {
    assert Possible(es, k);
    from := MaximalStreak(es, es[k].counted);
    LatestReconnect(es, k);
    if JustReconnected(es, k, es[k].now) {
      var r: nat :| IsLatestReconnect(es, r, k) && Since(es[r].now, es[k].now) < MIN_RECONNECT_INTERVAL;
      LatestUnique(es, r, k);
    }
  }

  lemma LatestUnique(es: seq<Event>, r: nat, n: nat)
    requires n <= |es| && IsLatestReconnect(es, r, n)
    ensures After(es, n).lastReconnect == Some(es[r].now)
  {
    LatestReconnect(es, n);
    if After(es, n).lastReconnect.Some? {
      var q: nat :| IsLatestReconnect(es, q, n) && es[q].now == After(es, n).lastReconnect.value;
      assert q == r;
    }
  }

  /** A timeout that is only the first or second since the count was cleared never leads to the
      lock. */
  lemma FewTimeoutsNeverAsk(es: seq<Event>, i: nat, k: nat)
    requires IsRun(es) && i < k < |es| && es[i].Counted? && CountAt(es, i) < TIMEOUTS_BEFORE_RECONNECT
    ensures !(es[k].Asked? && es[k].counted == i)
  {
    assert Possible(es, k);
  }

  /** An answer can come too late to stop a reconnect: three timeouts, an answer, and the third
      call still takes the lock. */
  lemma AnswerCanComeTooLate()
    ensures var es := [Counted(0), Counted(0), Counted(0), Answered, Asked(0, 2)]; IsRun(es) && ReconnectsAt(es, 4)
  {
    var es := [Counted(0), Counted(0), Counted(0), Answered, Asked(0, 2)];
    assert After(es, 0) == Tracker(0, None, false);
    assert After(es, 1) == Tracker(1, None, false);
    assert After(es, 2) == Tracker(2, None, false);
    assert After(es, 3) == Tracker(3, None, false);
    assert After(es, 4) == Tracker(0, None, false);
  }
}
