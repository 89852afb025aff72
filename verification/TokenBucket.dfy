/** The Redis token bucket: the Lua script on one key, the key's expiry, and what callers
    can rely on. Lua doubles are modelled as reals; times are milliseconds.

    Two clocks matter. The script refills by the reading `now` that each server takes of its
    own clock; Redis expires the key by its own. Nothing ties the readings of different
    servers to each other or to Redis, so runs carry both.
 */
module TokenBucket {

  /** The Redis hash: absent, or the tokens left at time `ts`. */
  datatype Bucket = Absent | Held(tokens: real, ts: int)

  datatype Answer = Answer(allowed: bool, remaining: int, retryAfterMs: int, nextTokenMs: int)

  /** A bucket's fixed parameters, both positive once the script runs. */
  datatype Limit = Limit(rate: nat, capacity: nat) {
    predicate Active() {
      rate > 0 && capacity > 0
    }
  }

  function Ceil(x: real): int {
    -((-x).Floor)
  }

  function Min(a: real, b: real): real {
    if a < b then a else b
  }

  /** Tokens that flow in over `ms` milliseconds. */
  function Refill(l: Limit, ms: int): real {
    (ms as real / 1000.0) * (l.rate as real)
  }

  /** Tokens available at `now`, before the request is served. */
  function Available(l: Limit, b: Bucket, now: int): real {
    var tokens := if b.Absent? then l.capacity as real else b.tokens;
    var ts := if b.Absent? then now else b.ts;
    var delta := if now - ts < 0 then 0 else now - ts;
    Min(l.capacity as real, tokens + Refill(l, delta))
  }

  /** Whole milliseconds until `missing` more tokens have flowed in. */
  function WaitFor(l: Limit, missing: real): int
    requires l.Active()
  {
    Ceil(missing * 1000.0 / (l.rate as real))
  }

  /** Tokens left once the request at `now` has been served. */
  function Left(l: Limit, b: Bucket, now: int): real {
    var tokens := Available(l, b, now);
    if tokens >= 1.0 then tokens - 1.0 else tokens
  }

  function Serve(l: Limit, b: Bucket, now: int): Answer
    requires l.Active()
  {
    var allowed := Available(l, b, now) >= 1.0;
    var tokens := Left(l, b, now);
    var whole := tokens.Floor;
    Answer(
      allowed,
      whole,
      if allowed then 0 else WaitFor(l, 1.0 - tokens),
      if whole < l.capacity then WaitFor(l, whole as real + 1.0 - tokens) else 0)
  }

  function Served(l: Limit, b: Bucket, now: int): Bucket {
    Held(Left(l, b, now), now)
  }

  const MIN_TTL := 60_000

  function RefillSecs(l: Limit): int
    requires l.Active()
  {
    Ceil(l.capacity as real / l.rate as real)
  }

  /** How long Redis keeps an idle bucket. */
  function TtlMs(l: Limit): int
    requires l.Active()
  {
    var twice := if RefillSecs(l) * 2 < 1 then 1 else RefillSecs(l) * 2;
    (if twice < 60 then 60 else twice) * 1000
  }

  /** The key: the bucket, and Redis's time when the script last ran on it. */
  datatype Key = Key(bucket: Bucket, last: int)

  /** One request: the server's reading of its clock, and Redis's time. */
  datatype Request = Request(now: int, at: int)

  class Limiter {
    const limit: Limit
    var bucket: Bucket
    var last: int

    function State(): Key
      reads this
    {
      Key(bucket, last)
    }

    constructor (limit: Limit)
      ensures this.limit == limit && State() == Key(Absent, 0)
    {
      this.limit := limit;
      bucket, last := Absent, 0;
    }

    /** One request. A zero rate or capacity blocks the key and leaves it alone. */
    method Check(r: Request) returns (a: Answer)
      modifies this
      ensures !limit.Active() ==> a == Answer(false, 0, 60_000, 60_000) && State() == old(State())
      ensures limit.Active() ==> a == Serve(limit, old(bucket), r.now)
      ensures limit.Active() ==> State() == Key(Served(limit, old(bucket), r.now), r.at)
    {
      if limit.rate == 0 || limit.capacity == 0 {
        return Answer(false, 0, 60_000, 60_000);
      }
      var tokens, ts := limit.capacity as real, r.now;
      if bucket.Held? {
        tokens, ts := bucket.tokens, bucket.ts;
      }
      var delta := r.now - ts;
      if delta < 0 {
        delta := 0;
      }
      tokens := Min(limit.capacity as real, tokens + Refill(limit, delta));
      var allowed, retryMs := tokens >= 1.0, 0;
      if allowed {
        tokens := tokens - 1.0;
      } else {
        retryMs := WaitFor(limit, 1.0 - tokens);
      }
      var whole := tokens.Floor;
      var nextMs := 0;
      if whole < limit.capacity {
        nextMs := WaitFor(limit, whole as real + 1.0 - tokens);
      }
      bucket, last := Held(tokens, r.now), r.at;
      a := Answer(allowed, whole, retryMs, nextMs);
    }

    /** Redis drops the key once its own clock is the time to live past the last request. */
    method Expire(at: int)
      requires limit.Active()
      modifies this
      ensures bucket == Found(limit, old(State()), at, true) && last == old(last)
    {
      if at - last >= TtlMs(limit) {
        bucket := Absent;
      }
    }
  }

  /** The bucket a request at Redis's time `at` finds, if Redis drops it as soon as it may. */
  function Found(l: Limit, k: Key, at: int, drop: bool): Bucket
    requires l.Active()
  {
    if drop && at - k.last >= TtlMs(l) then Absent else k.bucket
  }

  // ---------------------------------------------------------------------------
  // Arithmetic
  // ---------------------------------------------------------------------------

  lemma CeilLeast(x: real, d: int)
    ensures d >= Ceil(x) <==> d as real >= x
  {
  }

  lemma QuotientBound(d: real, r: real, x: real)
    requires r > 0.0
    ensures d >= x / r <==> d * r >= x
  {
    assert (x / r) * r == x;
    if d >= x / r {
      ProductMonotone(x / r, d, r);
    } else {
      ProductStrict(d, x / r, r);
    }
  }

  lemma ProductMonotone(a: real, b: real, r: real)
    requires a <= b && r >= 0.0
    ensures a * r <= b * r
  {
  }

  lemma ProductStrict(a: real, b: real, r: real)
    requires a < b && r > 0.0
    ensures a * r < b * r
  {
  }

  lemma RefillMonotone(l: Limit, a: int, b: int)
    requires a <= b
    ensures Refill(l, a) <= Refill(l, b)
  {
    ProductMonotone(a as real / 1000.0, b as real / 1000.0, l.rate as real);
  }

  lemma RefillAdds(l: Limit, a: int, b: int)
    ensures Refill(l, a + b) == Refill(l, a) + Refill(l, b)
  {
    var x, y, r := a as real / 1000.0, b as real / 1000.0, l.rate as real;
    assert (a + b) as real / 1000.0 == x + y;
    assert (x + y) * r == x * r + y * r;
  }

  lemma RefillNonNegative(l: Limit, ms: int)
    requires 0 <= ms
    ensures 0.0 <= Refill(l, ms)
  {
    ProductMonotone(0.0, ms as real / 1000.0, l.rate as real);
  }

  /** `WaitFor` is the least whole wait after which the missing tokens are there. */
  lemma WaitForLeast(l: Limit, missing: real, d: int)
    requires l.Active()
    ensures d >= WaitFor(l, missing) <==> Refill(l, d) >= missing
  {
    var r := l.rate as real;
    CeilLeast(missing * 1000.0 / r, d);
    QuotientBound(d as real, r, missing * 1000.0);
    assert (d as real / 1000.0) * r == d as real * r / 1000.0;
  }

  // ---------------------------------------------------------------------------
  // Bounds
  // ---------------------------------------------------------------------------

  ghost predicate Valid(l: Limit, b: Bucket) {
    b.Held? ==> 0.0 <= b.tokens <= l.capacity as real
  }

  lemma AvailableRange(l: Limit, b: Bucket, now: int)
    requires l.Active() && Valid(l, b)
    ensures 0.0 <= Available(l, b, now) <= l.capacity as real
  {
    var delta := if b.Absent? || now - b.ts < 0 then 0 else now - b.ts;
    RefillNonNegative(l, delta);
  }

  /** Tokens stay between 0 and the capacity, and the count shown to callers is below it. */
  lemma ServedValid(l: Limit, b: Bucket, now: int)
    requires l.Active() && Valid(l, b)
    ensures Valid(l, Served(l, b, now))
    ensures 0 <= Serve(l, b, now).remaining < l.capacity
  {
    AvailableRange(l, b, now);
  }

  lemma TtlAtLeast(l: Limit)
    requires l.Active()
    ensures TtlMs(l) >= MIN_TTL && TtlMs(l) >= 2000 * RefillSecs(l)
  {
  }

  /** Whole seconds that refill the bucket. */
  lemma SecsCover(l: Limit, ms: int)
    requires l.Active() && ms >= 1000 * RefillSecs(l)
    ensures Refill(l, ms) >= l.capacity as real
  {
    var c, r, secs := l.capacity as real, l.rate as real, RefillSecs(l);
    CeilLeast(c / r, secs);
    QuotientBound(secs as real, r, c);
    RefillMonotone(l, 1000 * secs, ms);
    assert (1000 * secs) as real / 1000.0 == secs as real;
  }

  // ---------------------------------------------------------------------------
  // Runs
  // ---------------------------------------------------------------------------

  const FRESH := Key(Absent, 0)

  ghost function Step(l: Limit, k: Key, r: Request, drop: bool): Key
    requires l.Active()
  {
    Key(Served(l, Found(l, k, r.at, drop), r.now), r.at)
  }

  /** The key after these requests, Redis dropping it before those that `drops` says, where it
      may. */
  ghost function After(l: Limit, k: Key, run: seq<Request>, drops: seq<bool>): Key
    requires l.Active() && |drops| == |run|
    decreases run
  {
    if run == [] then k else After(l, Step(l, k, run[0], drops[0]), run[1..], drops[1..])
  }

  /** How many of these requests are allowed. */
  ghost function AllowedCount(l: Limit, k: Key, run: seq<Request>, drops: seq<bool>): nat
    requires l.Active() && |drops| == |run|
    decreases run
  {
    if run == [] then 0
    else
      (if Available(l, Found(l, k, run[0].at, drops[0]), run[0].now) >= 1.0 then 1 else 0)
      + AllowedCount(l, Step(l, k, run[0], drops[0]), run[1..], drops[1..])
  }

  ghost function Answers(l: Limit, k: Key, run: seq<Request>, drops: seq<bool>): seq<Answer>
    requires l.Active() && |drops| == |run|
    decreases run
  {
    if run == [] then []
    else
      [Serve(l, Found(l, k, run[0].at, drops[0]), run[0].now)]
      + Answers(l, Step(l, k, run[0], drops[0]), run[1..], drops[1..])
  }

  lemma StepValid(l: Limit, k: Key, r: Request, drop: bool)
    requires l.Active() && Valid(l, k.bucket)
    ensures Valid(l, Found(l, k, r.at, drop)) && Valid(l, Step(l, k, r, drop).bucket)
  {
    ServedValid(l, Found(l, k, r.at, drop), r.now);
  }

  lemma {:induction false} AfterValid(l: Limit, k: Key, run: seq<Request>, drops: seq<bool>)
    requires l.Active() && Valid(l, k.bucket) && |drops| == |run|
    ensures Valid(l, After(l, k, run, drops).bucket)
    decreases run
  {
    if run != [] {
      StepValid(l, k, run[0], drops[0]);
      AfterValid(l, Step(l, k, run[0], drops[0]), run[1..], drops[1..]);
    }
  }

  /** How far a reading is ahead of another; going back counts nothing. */
  ghost function Ahead(a: int, b: int): nat {
    if a < b then b - a else 0
  }

  /** All the forward moves of the readings. */
  ghost function Rise(run: seq<Request>): nat
    decreases run
  {
    if |run| <= 1 then 0 else Ahead(run[0].now, run[1].now) + Rise(run[1..])
  }

  /** Redis drops the key between two requests although the readings say that it could not have
      refilled in the meantime. */
  ghost predicate EarlyDrop(l: Limit, p: Request, r: Request, drop: bool)
    requires l.Active()
  {
    drop && r.at - p.at >= TtlMs(l) && Refill(l, Ahead(p.now, r.now)) < l.capacity as real
  }

  /** The tokens those drops give away: a full bucket each. */
  ghost function GivenAway(l: Limit, run: seq<Request>, drops: seq<bool>): real
    requires l.Active() && |drops| == |run|
    decreases run
  {
    if |run| <= 1 then 0.0
    else
      (if EarlyDrop(l, run[0], run[1], drops[1]) then l.capacity as real else 0.0)
      + GivenAway(l, run[1..], drops[1..])
  }

  /** What one request leaves to the next. */
  lemma AvailableNext(l: Limit, k: Key, p: Request, dropped: bool, r: Request, drop: bool)
    requires l.Active() && Valid(l, k.bucket)
    ensures var next := Step(l, k, p, dropped);
            Available(l, Found(l, next, r.at, drop), r.now)
            <= Left(l, Found(l, k, p.at, dropped), p.now) + Refill(l, Ahead(p.now, r.now))
               + if EarlyDrop(l, p, r, drop) then l.capacity as real else 0.0
  {
    StepValid(l, k, p, dropped);
    RefillNonNegative(l, Ahead(p.now, r.now));
  }

  lemma {:induction false} AllowedWithin(l: Limit, k: Key, run: seq<Request>, drops: seq<bool>)
    requires l.Active() && Valid(l, k.bucket) && run != [] && |drops| == |run|
    ensures AllowedCount(l, k, run, drops) as real
            <= Available(l, Found(l, k, run[0].at, drops[0]), run[0].now) + Refill(l, Rise(run)) + GivenAway(l, run, drops)
    decreases run
  {
    var first := Found(l, k, run[0].at, drops[0]);
    StepValid(l, k, run[0], drops[0]);
    AvailableRange(l, first, run[0].now);
    if |run| == 1 {
      assert run[1..] == [];
      RefillNonNegative(l, 0);
    } else {
      var next := Step(l, k, run[0], drops[0]);
      AllowedWithin(l, next, run[1..], drops[1..]);
      AvailableNext(l, k, run[0], drops[0], run[1], drops[1]);
      RefillAdds(l, Ahead(run[0].now, run[1].now), Rise(run[1..]));
    }
  }

  /** Whatever came before, however the clocks behave and whenever Redis drops the key: the
      requests allowed in a window number at most the capacity plus the rate times the forward
      moves of the readings, plus the capacity once more for every early drop. */
  lemma AllowedBound(l: Limit, before: seq<Request>, dropsBefore: seq<bool>, window: seq<Request>, drops: seq<bool>)
    requires l.Active() && |dropsBefore| == |before| && window != [] && |drops| == |window|
    ensures AllowedCount(l, After(l, FRESH, before, dropsBefore), window, drops) as real
            <= l.capacity as real + Refill(l, Rise(window)) + GivenAway(l, window, drops)
  {
    var k := After(l, FRESH, before, dropsBefore);
    AfterValid(l, FRESH, before, dropsBefore);
    AllowedWithin(l, k, window, drops);
    StepValid(l, k, window[0], drops[0]);
    AvailableRange(l, Found(l, k, window[0].at, drops[0]), window[0].now);
  }

  // ---------------------------------------------------------------------------
  // Clocks that keep pace
  // ---------------------------------------------------------------------------

  /** When Redis's clock moves on by a time to live, a minute or more, the readings move on by
      at least half of it, in whole seconds. */
  ghost predicate Covered(p: Request, r: Request) {
    r.at - p.at >= MIN_TTL ==> Ahead(p.now, r.now) >= (r.at - p.at) / 2000 * 1000
  }

  ghost predicate AllCovered(run: seq<Request>) {
    forall i :: 0 < i < |run| ==> Covered(run[i - 1], run[i])
  }

  /** The readings never go back, and do not fall behind Redis by too much. */
  ghost predicate KeepsPace(run: seq<Request>) {
    AllCovered(run) && forall i :: 0 < i < |run| ==> run[i - 1].now <= run[i].now
  }

  ghost function Length(run: seq<Request>): int
    requires run != []
  {
    run[|run| - 1].now - run[0].now
  }

  /** Then every drop that Redis may make comes after a full refill. */
  lemma CoveredIsRefilled(l: Limit, p: Request, r: Request)
    requires l.Active() && Covered(p, r) && r.at - p.at >= TtlMs(l)
    ensures Refill(l, Ahead(p.now, r.now)) >= l.capacity as real
  {
    TtlAtLeast(l);
    assert (r.at - p.at) / 2000 >= RefillSecs(l);
    SecsCover(l, Ahead(p.now, r.now));
  }

  lemma {:induction false} NoEarlyDrops(l: Limit, run: seq<Request>, drops: seq<bool>)
    requires l.Active() && AllCovered(run) && |drops| == |run|
    ensures GivenAway(l, run, drops) == 0.0
    decreases run
  {
    if |run| > 1 {
      assert Covered(run[0], run[1]);
      if run[1].at - run[0].at >= TtlMs(l) {
        CoveredIsRefilled(l, run[0], run[1]);
      }
      CoveredTail(run);
      NoEarlyDrops(l, run[1..], drops[1..]);
    }
  }

  lemma CoveredTail(run: seq<Request>)
    requires AllCovered(run) && run != []
    ensures AllCovered(run[1..])
  {
    forall i | 0 < i < |run[1..]|
      ensures Covered(run[1..][i - 1], run[1..][i])
    {
      assert Covered(run[i], run[i + 1]);
    }
  }

  lemma {:induction false} RiseIsLength(run: seq<Request>)
    requires run != [] && forall i :: 0 < i < |run| ==> run[i - 1].now <= run[i].now
    ensures Rise(run) == Length(run)
    decreases run
  {
    if |run| > 1 {
      var rest := run[1..];
      assert run[0].now <= run[1].now;
      forall i | 0 < i < |rest|
        ensures rest[i - 1].now <= rest[i].now
      {
        assert run[i].now <= run[i + 1].now;
      }
      RiseIsLength(rest);
    }
  }

  /** With clocks that keep pace, and whenever Redis drops the key: at most the capacity plus the
      rate times the length of the window. */
  lemma WindowBound(l: Limit, before: seq<Request>, dropsBefore: seq<bool>, window: seq<Request>, drops: seq<bool>)
    requires l.Active() && |dropsBefore| == |before| && window != [] && |drops| == |window| && KeepsPace(window)
    ensures AllowedCount(l, After(l, FRESH, before, dropsBefore), window, drops) as real
            <= l.capacity as real + Refill(l, Length(window))
  {
    AllowedBound(l, before, dropsBefore, window, drops);
    NoEarlyDrops(l, window, drops);
    RiseIsLength(window);
  }

  // ---------------------------------------------------------------------------
  // Expiry
  // ---------------------------------------------------------------------------

  /** A request cannot tell a bucket from none exactly when the bucket is full by then. */
  lemma EvictionExact(l: Limit, b: Bucket, now: int)
    requires l.Active() && Valid(l, b)
    ensures Serve(l, b, now) == Serve(l, Absent, now) && Served(l, b, now) == Served(l, Absent, now)
            <==> Available(l, b, now) == l.capacity as real
  {
    AvailableRange(l, b, now);
  }

  /** Where the readings are covered, no choice of drops changes any answer. */
  lemma {:induction false} EvictionNeverObservable(l: Limit, k: Key, run: seq<Request>, drops: seq<bool>, other: seq<bool>)
    requires l.Active() && Valid(l, k.bucket) && |drops| == |other| == |run|
    requires k.bucket.Held? ==> AllCovered([Request(k.bucket.ts, k.last)] + run)
    requires k.bucket.Absent? ==> AllCovered(run)
    ensures Answers(l, k, run, drops) == Answers(l, k, run, other)
    ensures AllowedCount(l, k, run, drops) == AllowedCount(l, k, run, other)
    decreases run
  {
    if run != [] {
      FoundTheSame(l, k, run, drops[0]);
      FoundTheSame(l, k, run, other[0]);
      StepValid(l, k, run[0], drops[0]);
      assert [run[0]] + run[1..] == run;
      if k.bucket.Held? {
        CoveredTail([Request(k.bucket.ts, k.last)] + run);
        assert ([Request(k.bucket.ts, k.last)] + run)[1..] == run;
      }
      assert Step(l, k, run[0], drops[0]) == Step(l, k, run[0], other[0]);
      EvictionNeverObservable(l, Step(l, k, run[0], drops[0]), run[1..], drops[1..], other[1..]);
    }
  }

  lemma FoundTheSame(l: Limit, k: Key, run: seq<Request>, drop: bool)
    requires l.Active() && Valid(l, k.bucket) && run != []
    requires k.bucket.Held? ==> AllCovered([Request(k.bucket.ts, k.last)] + run)
    ensures var r := run[0];
            && Serve(l, Found(l, k, r.at, drop), r.now) == Serve(l, k.bucket, r.now)
            && Available(l, Found(l, k, r.at, drop), r.now) == Available(l, k.bucket, r.now)
            && Step(l, k, r, drop) == Key(Served(l, k.bucket, r.now), r.at)
  {
    var r := run[0];
    if k.bucket.Held? && drop && r.at - k.last >= TtlMs(l) {
      var p := Request(k.bucket.ts, k.last);
      var all := [p] + run;
      assert Covered(all[0], all[1]);
      CoveredIsRefilled(l, p, r);
      assert Available(l, k.bucket, r.now) == l.capacity as real;
      EvictionExact(l, k.bucket, r.now);
    }
  }

  // ---------------------------------------------------------------------------
  // Which clocks keep the bound
  // ---------------------------------------------------------------------------

  /** `n` requests at each of these moments. */
  ghost function Bursts(moments: seq<Request>, n: nat): seq<Request>
    decreases moments
  {
    if moments == [] then [] else seq(n, _ => moments[0]) + Bursts(moments[1..], n)
  }

  ghost predicate BurstsKeepBound(l: Limit, moments: seq<Request>, n: nat, drops: seq<bool>)
    requires l.Active() && moments != [] && |drops| == |Bursts(moments, n)|
  {
    AllowedCount(l, FRESH, Bursts(moments, n), drops) as real <= l.capacity as real + Refill(l, Length(moments))
  }

  /** No limit, no burst size and no choice of drops exceeds, in any window, the capacity plus
      the rate times its length. */
  ghost predicate KeepsBound(clock: seq<Request>) {
    forall i: nat, j: nat, l: Limit, n: nat, drops: seq<bool> ::
      i < j <= |clock| && l.Active() && n > 0 && |drops| == |Bursts(clock[i..j], n)| ==>
        BurstsKeepBound(l, clock[i..j], n, drops)
  }

  /** Every request and the next are related. */
  ghost predicate Chained(run: seq<Request>, rel: (Request, Request) -> bool) {
    forall i :: 0 < i < |run| ==> rel(run[i - 1], run[i])
  }

  lemma ChainBurst(r: Request, n: nat, rest: seq<Request>, rel: (Request, Request) -> bool)
    requires n > 0 && rel(r, r) && Chained(rest, rel) && (rest != [] ==> rel(r, rest[0]))
    ensures Chained(seq(n, _ => r) + rest, rel)
  {
    var all := seq(n, _ => r) + rest;
    forall i | 0 < i < |all|
      ensures rel(all[i - 1], all[i])
    {
      if i > n {
        assert all[i] == rest[i - n] && all[i - 1] == rest[i - n - 1];
      }
    }
  }

  lemma {:induction false} BurstEnds(moments: seq<Request>, n: nat)
    requires n > 0 && moments != []
    ensures var all := Bursts(moments, n);
            all != [] && all[0] == moments[0] && all[|all| - 1] == moments[|moments| - 1]
    decreases moments
  {
    var rest := moments[1..];
    if rest != [] {
      BurstEnds(rest, n);
    } else {
      assert Bursts(rest, n) == [];
    }
  }

  /** Repeating each moment keeps what relates every moment to itself and to the next. */
  lemma {:induction false} ChainBursts(moments: seq<Request>, n: nat, rel: (Request, Request) -> bool)
    requires n > 0 && Chained(moments, rel) && forall r :: rel(r, r)
    ensures Chained(Bursts(moments, n), rel)
    decreases moments
  {
    if moments != [] {
      var r, rest := moments[0], moments[1..];
      forall i | 0 < i < |rest|
        ensures rel(rest[i - 1], rest[i])
      {
        assert rel(moments[i], moments[i + 1]);
      }
      ChainBursts(rest, n, rel);
      if rest != [] {
        BurstEnds(rest, n);
        assert rel(moments[0], moments[1]);
      }
      assert rel(r, r);
      ChainBurst(r, n, Bursts(rest, n), rel);
    }
  }

  lemma BurstsCovered(moments: seq<Request>, n: nat)
    requires n > 0 && moments != [] && AllCovered(moments)
    ensures AllCovered(Bursts(moments, n))
  {
    var rel := (p: Request, r: Request) => Covered(p, r);
    assert Chained(moments, rel);
    ChainBursts(moments, n, rel);
    forall i | 0 < i < |Bursts(moments, n)|
      ensures Covered(Bursts(moments, n)[i - 1], Bursts(moments, n)[i])
    {
      assert rel(Bursts(moments, n)[i - 1], Bursts(moments, n)[i]);
    }
  }

  lemma BurstsKeepPace(moments: seq<Request>, n: nat)
    requires n > 0 && moments != [] && KeepsPace(moments)
    ensures var all := Bursts(moments, n);
            && all != [] && all[0] == moments[0] && all[|all| - 1] == moments[|moments| - 1] && KeepsPace(all)
  {
    BurstsCovered(moments, n);
    BurstEnds(moments, n);
    var rel := (p: Request, r: Request) => p.now <= r.now;
    assert Chained(moments, rel);
    ChainBursts(moments, n, rel);
    forall i | 0 < i < |Bursts(moments, n)|
      ensures Bursts(moments, n)[i - 1].now <= Bursts(moments, n)[i].now
    {
      assert rel(Bursts(moments, n)[i - 1], Bursts(moments, n)[i]);
    }
  }

  lemma CoveredPart(clock: seq<Request>, i: nat, j: nat)
    requires AllCovered(clock) && i <= j <= |clock|
    ensures AllCovered(clock[i..j])
  {
    forall k | 0 < k < |clock[i..j]|
      ensures Covered(clock[i..j][k - 1], clock[i..j][k])
    {
      assert Covered(clock[i + k - 1], clock[i + k]);
    }
  }

  lemma PaceOfPart(clock: seq<Request>, i: nat, j: nat)
    requires KeepsPace(clock) && i <= j <= |clock|
    ensures KeepsPace(clock[i..j])
  {
    CoveredPart(clock, i, j);
    forall k | 0 < k < |clock[i..j]|
      ensures clock[i..j][k - 1].now <= clock[i..j][k].now
    {
      assert clock[i + k - 1].now <= clock[i + k].now;
    }
  }

  lemma PaceKeepsBound(clock: seq<Request>)
    requires KeepsPace(clock)
    ensures KeepsBound(clock)
  {
    forall i: nat, j: nat, l: Limit, n: nat, drops: seq<bool> |
      i < j <= |clock| && l.Active() && n > 0 && |drops| == |Bursts(clock[i..j], n)|
      ensures BurstsKeepBound(l, clock[i..j], n, drops)
    {
      PaceOfPart(clock, i, j);
      BurstsKeepPace(clock[i..j], n);
      WindowBound(l, [], [], Bursts(clock[i..j], n), drops);
    }
  }

  /** With `m` whole tokens there, a burst of `n >= m` requests takes them all; within it Redis
      has no time to drop the key. */
  lemma {:induction false} BurstDrains(l: Limit, k: Key, r: Request, m: nat, n: nat, rest: seq<Request>, drops: seq<bool>)
    requires l.Active() && m <= n && n > 0 && m <= l.capacity && |drops| == n + |rest|
    requires Available(l, Found(l, k, r.at, drops[0]), r.now) == m as real
    ensures AllowedCount(l, k, seq(n, _ => r) + rest, drops)
            == m + AllowedCount(l, Key(Held(0.0, r.now), r.at), rest, drops[n..])
    decreases n
  {
    var all := seq(n, _ => r) + rest;
    assert all[0] == r && all[1..] == seq(n - 1, _ => r) + rest;
    var left: nat := if m == 0 then 0 else m - 1;
    var next := Key(Held(left as real, r.now), r.at);
    assert Step(l, k, r, drops[0]) == next;
    if n == 1 {
      assert all[1..] == rest;
    } else {
      TtlAtLeast(l);
      RefillNonNegative(l, 0);
      assert Refill(l, 0) == 0.0;
      BurstDrains(l, next, r, left, n - 1, rest, drops[1..]);
      assert drops[1..][n - 1..] == drops[n..];
    }
  }

  /** Two moments at which the readings go back. */
  lemma BackBreaks(p: Request, r: Request)
    requires r.now < p.now
    ensures !BurstsKeepBound(Limit(1000, 1), [p, r], 1, seq(|Bursts([p, r], 1)|, _ => false))
  {
    var l, run := Limit(1000, 1), Bursts([p, r], 1);
    assert [p, r][1..] == [r] && [r][1..] == [];
    assert run == seq(1, _ => p) + Bursts([r], 1);
    BurstDrains(l, FRESH, p, 1, 1, Bursts([r], 1), seq(|run|, _ => false));
    assert Refill(l, r.now - p.now) == (r.now - p.now) as real;
  }

  lemma TtlOfSeconds(secs: nat)
    requires secs >= 30
    ensures TtlMs(Limit(1, secs)) == 2000 * secs && RefillSecs(Limit(1, secs)) == secs
  {
    assert secs as real / 1.0 == secs as real;
  }

  /** Two moments between which Redis forgets a bucket that could not have refilled. */
  lemma ForgettingBreaks(p: Request, r: Request, secs: nat)
    requires secs == (r.at - p.at) / 2000 && secs >= 30 && Ahead(p.now, r.now) < 1000 * secs
    ensures var run := Bursts([p, r], secs);
            && AllowedCount(Limit(1, secs), FRESH, run, seq(|run|, _ => true)) == 2 * secs
            && AllowedCount(Limit(1, secs), FRESH, run, seq(|run|, _ => false)) < 2 * secs
  {
    var l, run := Limit(1, secs), Bursts([p, r], secs);
    var second := Bursts([r], secs);
    assert [p, r][1..] == [r] && [r][1..] == [];
    assert second == seq(secs, _ => r) + Bursts([], secs) == seq(secs, _ => r) + [];
    TtlOfSeconds(secs);
    var drained := Key(Held(0.0, p.now), p.at);
    var yes, no := seq(|run|, _ => true), seq(|run|, _ => false);
    BurstDrains(l, FRESH, p, secs, secs, second, yes);
    BurstDrains(l, FRESH, p, secs, secs, second, no);
    BurstDrains(l, drained, r, secs, secs, [], yes[secs..]);
    SecondBurst(l, drained, r, secs, second, no[secs..]);
  }

  /** A burst with less than a full bucket to begin with is not all allowed. */
  lemma SecondBurst(l: Limit, k: Key, r: Request, n: nat, run: seq<Request>, drops: seq<bool>)
    requires l.Active() && Valid(l, k.bucket) && n > 0 && run == seq(n, _ => r) && |drops| == n
    requires forall i :: 0 <= i < n ==> !drops[i]
    requires Available(l, k.bucket, r.now) < n as real
    ensures AllowedCount(l, k, run, drops) < n
  {
    AllowedWithin(l, k, run, drops);
    StillMoment(l, run, drops, r);
  }

  lemma {:induction false} StillMoment(l: Limit, run: seq<Request>, drops: seq<bool>, r: Request)
    requires l.Active() && |drops| == |run| && forall i :: 0 <= i < |run| ==> run[i] == r
    ensures Rise(run) == 0 && GivenAway(l, run, drops) == 0.0
    decreases run
  {
    TtlAtLeast(l);
    if |run| > 1 {
      StillMoment(l, run[1..], drops[1..], r);
    }
  }

  lemma BoundNeedsPace(clock: seq<Request>, k: nat)
    requires 0 < k < |clock| && (clock[k].now < clock[k - 1].now || !Covered(clock[k - 1], clock[k]))
    ensures !KeepsBound(clock)
  {
    var p, r := clock[k - 1], clock[k];
    assert clock[k - 1..k + 1] == [p, r];
    if r.now < p.now {
      BackBreaks(p, r);
    } else {
      var secs := (r.at - p.at) / 2000;
      ForgettingBreaks(p, r, secs);
      var run := Bursts([p, r], secs);
      assert Refill(Limit(1, secs), r.now - p.now) < secs as real;
      assert !BurstsKeepBound(Limit(1, secs), clock[k - 1..k + 1], secs, seq(|run|, _ => true));
    }
  }

  /** The bound holds in every window, under every limit, burst size and choice of drops, if and
      only if the readings never go back and keep pace with Redis. */
  lemma BoundExact(clock: seq<Request>)
    ensures KeepsBound(clock) <==> KeepsPace(clock)
  {
    if KeepsPace(clock) {
      PaceKeepsBound(clock);
    } else {
      var k :| 0 < k < |clock| && (clock[k].now < clock[k - 1].now || !Covered(clock[k - 1], clock[k]));
      BoundNeedsPace(clock, k);
    }
  }

  /** No limit, no burst size and no window shows a difference between two choices of drops. */
  ghost predicate HidesDrops(clock: seq<Request>) {
    forall i: nat, j: nat, l: Limit, n: nat, drops: seq<bool>, other: seq<bool> ::
      i < j <= |clock| && l.Active() && n > 0 && |drops| == |other| == |Bursts(clock[i..j], n)| ==>
        BurstsAnswerAlike(l, clock[i..j], n, drops, other)
  }

  ghost predicate BurstsAnswerAlike(l: Limit, moments: seq<Request>, n: nat, drops: seq<bool>, other: seq<bool>)
    requires l.Active() && |drops| == |other| == |Bursts(moments, n)|
  {
    Answers(l, FRESH, Bursts(moments, n), drops) == Answers(l, FRESH, Bursts(moments, n), other)
  }

  /** The answers say how many requests were allowed. */
  lemma {:induction false} AnswersCount(l: Limit, k: Key, h: Key, run: seq<Request>, drops: seq<bool>, other: seq<bool>)
    requires l.Active() && |drops| == |other| == |run| && Answers(l, k, run, drops) == Answers(l, h, run, other)
    ensures AllowedCount(l, k, run, drops) == AllowedCount(l, h, run, other)
    decreases run
  {
    if run != [] {
      var a, b := Answers(l, k, run, drops), Answers(l, h, run, other);
      assert a[0] == b[0] && a[1..] == b[1..];
      AnswersCount(l, Step(l, k, run[0], drops[0]), Step(l, h, run[0], other[0]), run[1..], drops[1..], other[1..]);
    }
  }

  lemma UncoveredShows(clock: seq<Request>, k: nat)
    requires 0 < k < |clock| && !Covered(clock[k - 1], clock[k])
    ensures !HidesDrops(clock)
  {
    var p, r := clock[k - 1], clock[k];
    assert clock[k - 1..k + 1] == [p, r];
    var secs := (r.at - p.at) / 2000;
    ForgettingBreaks(p, r, secs);
    var l, run := Limit(1, secs), Bursts([p, r], secs);
    var yes, no := seq(|run|, _ => true), seq(|run|, _ => false);
    if BurstsAnswerAlike(l, clock[k - 1..k + 1], secs, yes, no) {
      AnswersCount(l, FRESH, FRESH, run, yes, no);
    }
  }

  /** Expiry is unobservable, under every limit and burst size and in every window, if and only
      if the readings keep up with Redis: a minute or more of its time between two requests
      brings them forward by at least half as much, in whole seconds. */
  lemma ExpiryHiddenExactly(clock: seq<Request>)
    ensures HidesDrops(clock) <==> AllCovered(clock)
  {
    if AllCovered(clock) {
      forall i: nat, j: nat, l: Limit, n: nat, drops: seq<bool>, other: seq<bool> |
        i < j <= |clock| && l.Active() && n > 0 && |drops| == |other| == |Bursts(clock[i..j], n)|
        ensures BurstsAnswerAlike(l, clock[i..j], n, drops, other)
      {
        CoveredPart(clock, i, j);
        BurstsCovered(clock[i..j], n);
        EvictionNeverObservable(l, FRESH, Bursts(clock[i..j], n), drops, other);
      }
    } else {
      var k :| 0 < k < |clock| && !Covered(clock[k - 1], clock[k]);
      UncoveredShows(clock, k);
    }
  }

  // ---------------------------------------------------------------------------
  // Three requests are enough
  // ---------------------------------------------------------------------------

  /** A bucket of one token that any millisecond refills. */
  const SMALLEST := Limit(1000, 1)

  ghost function AllowedOfThree(p: Request, q: Request, r: Request, drops: seq<bool>): nat
    requires |drops| == 3
  {
    AllowedCount(SMALLEST, FRESH, [p, q, r], drops)
  }

  lemma SmallestTtl()
    ensures TtlMs(SMALLEST) == MIN_TTL
  {
    assert 1 as real / 1000 as real == 0.001;
  }

  /** Whether a request finds a token in the drained bucket. */
  lemma SmallestNext(k: Key, r: Request, drop: bool)
    requires k.bucket.Held? && k.bucket.tokens == 0.0
    ensures Step(SMALLEST, k, r, drop) == Key(Held(0.0, r.now), r.at)
    ensures Available(SMALLEST, Found(SMALLEST, k, r.at, drop), r.now)
            == if k.bucket.ts < r.now || (drop && r.at - k.last >= MIN_TTL) then 1.0 else 0.0
  {
    SmallestTtl();
    var delta := if r.now - k.bucket.ts < 0 then 0 else r.now - k.bucket.ts;
    assert Refill(SMALLEST, delta) == delta as real;
  }

  lemma ThreeCounted(p: Request, q: Request, r: Request, drops: seq<bool>)
    requires |drops| == 3
    ensures AllowedOfThree(p, q, r, drops)
            == 1 + (if p.now < q.now || (drops[1] && q.at - p.at >= MIN_TTL) then 1 else 0)
                 + (if q.now < r.now || (drops[2] && r.at - q.at >= MIN_TTL) then 1 else 0)
  {
    var l, run := SMALLEST, [p, q, r];
    assert run[1..] == [q, r] && [q, r][1..] == [r] && [r][1..] == [];
    assert Available(l, Found(l, FRESH, p.at, drops[0]), p.now) == 1.0;
    var k1 := Key(Held(0.0, p.now), p.at);
    var k2 := Key(Held(0.0, q.now), q.at);
    SmallestNext(k1, q, drops[1]);
    SmallestNext(k2, r, drops[2]);
    assert Step(l, FRESH, p, drops[0]) == k1;
    var second := if p.now < q.now || (drops[1] && q.at - p.at >= MIN_TTL) then 1 else 0;
    var third := if q.now < r.now || (drops[2] && r.at - q.at >= MIN_TTL) then 1 else 0;
    assert AllowedCount(l, k2, [r], drops[2..]) == third;
    assert drops[1..][1..] == drops[2..];
    assert AllowedCount(l, k1, [q, r], drops[1..]) == second + third;
  }

  /** Without bursts: three requests, the first and last with the same reading, keep the bound
      under every limit and choice of drops if and only if the readings stand still and Redis
      has no time to drop the key. */
  lemma ThreeRequestsExact(p: Request, q: Request, r: Request)
    requires p.now == r.now
    ensures p.now == q.now && q.at - p.at < MIN_TTL && r.at - q.at < MIN_TTL
            <==> forall l: Limit, drops: seq<bool> :: l.Active() && |drops| == 3 ==>
                   AllowedCount(l, FRESH, [p, q, r], drops) as real <= l.capacity as real + Refill(l, 0)
  {
    if p.now == q.now && q.at - p.at < MIN_TTL && r.at - q.at < MIN_TTL {
      forall l: Limit, drops: seq<bool> | l.Active() && |drops| == 3
        ensures AllowedCount(l, FRESH, [p, q, r], drops) as real <= l.capacity as real + Refill(l, 0)
      {
        WindowBound(l, [], [], [p, q, r], drops);
      }
    } else {
      var drops := [true, true, true];
      ThreeCounted(p, q, r, drops);
      assert Refill(SMALLEST, 0) == 0.0 && SMALLEST.Active();
      assert AllowedCount(SMALLEST, FRESH, [p, q, r], drops) >= 2;
    }
  }

  // ---------------------------------------------------------------------------
  // The waits reported to callers
  // ---------------------------------------------------------------------------

  lemma AvailableLater(l: Limit, b: Bucket, now: int, d: int)
    requires l.Active() && 0 <= d
    ensures Available(l, Served(l, b, now), now + d)
            == Min(l.capacity as real, Left(l, b, now) + Refill(l, d))
  {
  }

  /** The flow in numbers: a new bucket is full; `d` milliseconds bring in `rate` tokens a second,
      up to the capacity, and a reading that goes back brings in none; a request takes one
      token if there is one, and is allowed exactly then. */
  lemma TokenFlow(l: Limit, tokens: real, ts: int, d: int)
    requires l.Active() && 0.0 <= tokens <= l.capacity as real && 0 <= d
    ensures Available(l, Absent, ts) == l.capacity as real
    ensures var full := tokens * 1000.0 + (d * l.rate) as real;
            1000.0 * Available(l, Held(tokens, ts), ts + d)
            == if full > l.capacity as real * 1000.0 then l.capacity as real * 1000.0 else full
    ensures Available(l, Held(tokens, ts), ts - d) == tokens
    ensures var have, a := Available(l, Held(tokens, ts), ts + d), Serve(l, Held(tokens, ts), ts + d);
            && (a.allowed <==> have >= 1.0)
            && Served(l, Held(tokens, ts), ts + d) == Held(if a.allowed then have - 1.0 else have, ts + d)
  {
    var r := l.rate as real;
    assert (d * l.rate) as real == d as real * r;
    assert Refill(l, d) * 1000.0 == d as real * r by {
      assert (d as real / 1000.0) * r * 1000.0 == (d as real / 1000.0) * 1000.0 * r;
    }
    assert Refill(l, 0) == 0.0;
  }

  /** After a refusal an undisturbed bucket allows a request exactly from `retryAfterMs` on,
      and `nextTokenMs` says the same. */
  lemma RetryAfterExact(l: Limit, b: Bucket, now: int, d: int)
    requires l.Active() && Valid(l, b) && !Serve(l, b, now).allowed && 0 <= d
    ensures Serve(l, Served(l, b, now), now + d).allowed <==> d >= Serve(l, b, now).retryAfterMs
    ensures Serve(l, b, now).nextTokenMs == Serve(l, b, now).retryAfterMs
  {
    AvailableRange(l, b, now);
    AvailableLater(l, b, now, d);
    WaitForLeast(l, 1.0 - Left(l, b, now), d);
  }

  /** Whole tokens in an undisturbed bucket go up exactly from `nextTokenMs` on, after every
      answer; it is never 0, because serving leaves the bucket below its capacity. */
  lemma NextTokenExact(l: Limit, b: Bucket, now: int, d: int)
    requires l.Active() && Valid(l, b) && 0 <= d
    ensures Available(l, Served(l, b, now), now + d).Floor > Serve(l, b, now).remaining
            <==> d >= Serve(l, b, now).nextTokenMs
    ensures Serve(l, b, now).nextTokenMs > 0
  {
    var tokens := Left(l, b, now);
    var whole := tokens.Floor;
    ServedValid(l, b, now);
    AvailableLater(l, b, now, d);
    WaitForLeast(l, whole as real + 1.0 - tokens, d);
    WaitForLeast(l, whole as real + 1.0 - tokens, 0);
    assert Refill(l, 0) == 0.0;
  }
}
