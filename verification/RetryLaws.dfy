/** What racing retries of one delivery keep, over every run. */
module RetryLaws {
  import opened Wrappers
  import opened RetryClaim

  function Max(a: int, b: int): int {
    if a < b then b else a
  }

  /** No attempt number exceeds this. */
  function Bound(s: State): int {
    Max(s.maxAttempts, MAX_MANUAL_ATTEMPTS)
  }

  ghost predicate Below(requests: seq<int>, n: int) {
    forall i :: 0 <= i < |requests| ==> requests[i] <= n
  }

  /** Attempts and token advance together, so equal tokens mean equal attempts. */
  ghost predicate ClaimOk(row: Option<Row>, c: Claim) {
    && row.Some? && c.token <= row.value.token
    && c.attempts - c.token == row.value.attempts - row.value.token
  }

  ghost function ClaimOf(b: Sender): Option<Claim> {
    if b.Cleared? || b.Sent? || b.Releasing? then b.claim else None
  }

  ghost predicate SenderOk(s: State, who: nat, b: Sender) {
    match b
    case Ready(a) =>
      && who == 0 && 1 <= a <= s.maxAttempts
      && (a == 1 ==> s.row.None?) && (s.row.None? ==> Below(s.requests, a - 1))
    case Missed(a) => who == 0 && 1 <= a <= s.maxAttempts && (s.row.None? ==> Below(s.requests, a - 1))
    case Observed(_) => who != 0
    case Cleared(a, None) => who == 0 && 1 <= a <= s.maxAttempts && s.row.None? && Below(s.requests, a - 1)
    case Sent(a, None, _) => who == 0 && 1 <= a <= s.maxAttempts && s.row.None? && Below(s.requests, a)
    case Releasing(_, None, _) => false
    case Cleared(a, Some(c)) => HoldsClaim(s, who, a, c) && a !in s.requests
    case Sent(a, Some(c), _) => HoldsClaim(s, who, a, c)
    case Releasing(a, Some(c), _) => HoldsClaim(s, who, a, c)
    case Done => true
  }

  ghost predicate HoldsClaim(s: State, who: nat, a: int, c: Claim) {
    ClaimOk(s.row, c) && a == c.attempts && 1 <= a <= Bound(s) && (who == 0 ==> a <= s.maxAttempts)
  }

  ghost predicate TokensDiffer(s: State) {
    forall x, y :: (x in s.senders && y in s.senders && x != y
                    && ClaimOf(s.senders[x]).Some? && ClaimOf(s.senders[y]).Some?) ==>
                     ClaimOf(s.senders[x]).value.token != ClaimOf(s.senders[y]).value.token
  }

  ghost predicate RequestsOk(s: State) {
    && (forall i, j :: 0 <= i < j < |s.requests| ==> s.requests[i] != s.requests[j])
    && (forall i :: 0 <= i < |s.requests| ==> 1 <= s.requests[i] <= Bound(s))
  }

  ghost predicate RowOk(s: State) {
    s.row.Some? ==> 1 <= s.row.value.attempts <= Bound(s) && Below(s.requests, s.row.value.attempts)
  }

  ghost predicate Inv(s: State) {
    && s.maxAttempts >= 1
    && 0 in s.senders
    && RequestsOk(s) && RowOk(s) && TokensDiffer(s)
    && forall who :: who in s.senders ==> SenderOk(s, who, s.senders[who])
  }

  /** A delivery just queued, with its attempt budget raised to at least one. */
  function Initial(now: int, maxAttempts: int): State {
    State(None, now, Max(maxAttempts, 1), map[0 := Ready(1)], [])
  }

  // ---------------------------------------------------------------------------
  // Every step keeps the invariant
  // ---------------------------------------------------------------------------

  /** Only the sender that steps can change the row, and in these ways only. */
  ghost predicate RowStep(s: State, t: State) {
    || t.row == s.row
    || (s.row.None? && t.row.Some?)
    || (s.row.Some? && t.row.Some? && s.row.value.status == Status.Failed
        && t.row.value.attempts == s.row.value.attempts && t.row.value.token == s.row.value.token)
    || (s.row.Some? && t.row.Some? && s.row.value.status == Status.Failed
        && t.row.value.attempts == s.row.value.attempts + 1 && t.row.value.token == s.row.value.token + 1)
  }

  lemma StepsRow(s: State, op: Op)
    requires Inv(s) && Enabled(s, op)
    ensures RowStep(s, Apply(s, op))
  {
    if !op.Tick? && op.who in s.senders {
      assert SenderOk(s, op.who, s.senders[op.who]);
    }
  }

  /** A row is only ever inserted by the automatic sender's own unclaimed write. */
  lemma Inserts(s: State, op: Op)
    requires Inv(s) && Enabled(s, op) && s.row.None? && Apply(s, op).row.Some?
    ensures op.Record? && op.who == 0 && s.senders[0].Sent? && s.senders[0].claim.None?
    ensures Apply(s, op).row.value.attempts == s.senders[0].attempt
    ensures forall who :: who in s.senders && who != 0 ==> ClaimOf(s.senders[who]).None?
  {
    assert SenderOk(s, op.who, s.senders[op.who]);
    forall who | who in s.senders && who != 0
      ensures ClaimOf(s.senders[who]).None?
    {
      assert SenderOk(s, who, s.senders[who]);
    }
  }

  /** What a step changes for the senders that did not take it. */
  lemma KeepsOthers(s: State, op: Op, who: nat)
    requires Inv(s) && Enabled(s, op) && who in s.senders && (op.Tick? || op.who != who)
    ensures SenderOk(Apply(s, op), who, s.senders[who])
  {
    var t := Apply(s, op);
    assert SenderOk(s, who, s.senders[who]);
    StepsRow(s, op);
    if s.row.None? && t.row.Some? {
      Inserts(s, op);
    }
    if op.Send? {
      assert SenderOk(s, op.who, s.senders[op.who]);
    }
  }

  lemma KeepsOwn(s: State, op: Op)
    requires Inv(s) && Enabled(s, op) && !op.Tick?
    ensures SenderOk(Apply(s, op), op.who, SenderAfter(s, op))
  {
    if op.who in s.senders {
      assert SenderOk(s, op.who, s.senders[op.who]);
    }
  }

  lemma KeepsRow(s: State, op: Op)
    requires Inv(s) && Enabled(s, op)
    ensures RowOk(Apply(s, op))
  {
    if !op.Tick? && op.who in s.senders {
      assert SenderOk(s, op.who, s.senders[op.who]);
    }
  }

  lemma KeepsRequests(s: State, op: Op)
    requires Inv(s) && Enabled(s, op)
    ensures RequestsOk(Apply(s, op))
  {
    if op.Send? {
      assert SenderOk(s, op.who, s.senders[op.who]);
    }
  }

  /** A step leaves its sender with the claim it had, with none, or with a brand-new one. */
  lemma OwnClaim(s: State, op: Op)
    requires Inv(s) && Enabled(s, op) && !op.Tick? && ClaimOf(SenderAfter(s, op)).Some?
    ensures (op.who in s.senders && ClaimOf(SenderAfter(s, op)) == ClaimOf(s.senders[op.who]))
            || (s.row.Some? && ClaimOf(SenderAfter(s, op)).value.token == s.row.value.token + 1)
  {
  }

  lemma KeepsTokens(s: State, op: Op)
    requires Inv(s) && Enabled(s, op)
    ensures TokensDiffer(Apply(s, op))
  {
    if !op.Tick? && ClaimOf(SenderAfter(s, op)).Some? {
      OwnClaim(s, op);
      forall x | x in s.senders && x != op.who && ClaimOf(s.senders[x]).Some?
        ensures ClaimOf(s.senders[x]).value.token != ClaimOf(SenderAfter(s, op)).value.token
      {
        assert SenderOk(s, x, s.senders[x]);
      }
    }
  }

  lemma StepKeepsInv(s: State, op: Op)
    requires Inv(s) && Enabled(s, op)
    ensures Inv(Apply(s, op))
  {
    KeepsRequests(s, op);
    KeepsRow(s, op);
    KeepsTokens(s, op);
    var t := Apply(s, op);
    forall who | who in t.senders
      ensures SenderOk(t, who, t.senders[who])
    {
      if !op.Tick? && op.who == who {
        KeepsOwn(s, op);
      } else {
        KeepsOthers(s, op, who);
      }
    }
  }

  // ---------------------------------------------------------------------------
  // Runs
  // ---------------------------------------------------------------------------

  datatype Run = Run(states: seq<State>, ops: seq<Op>) {
    ghost predicate Valid() {
      && |states| == |ops| + 1
      && states[0] == Initial(states[0].now, states[0].maxAttempts)
      && forall i {:trigger ops[i]} :: 0 <= i < |ops| ==> Follows(states[i], ops[i], states[i + 1])
    }
  }

  ghost predicate Follows(s: State, op: Op, t: State) {
    Enabled(s, op) && t == Apply(s, op)
  }

  lemma {:induction false} RunInv(run: Run, i: nat)
    requires run.Valid() && i < |run.states|
    ensures Inv(run.states[i]) && run.states[i].maxAttempts == run.states[0].maxAttempts
  {
    if i > 0 {
      RunInv(run, i - 1);
      assert Follows(run.states[i - 1], run.ops[i - 1], run.states[i]);
      StepKeepsInv(run.states[i - 1], run.ops[i - 1]);
    }
  }

  /** Every request of the delivery carries its own attempt number. */
  lemma AttemptNumbersDistinct(run: Run, n: nat, i: nat, j: nat)
    requires run.Valid() && n < |run.states| && i < j < |run.states[n].requests|
    ensures run.states[n].requests[i] != run.states[n].requests[j]
  {
    RunInv(run, n);
  }

  lemma {:induction false} Pigeonhole(xs: seq<int>, n: nat)
    requires forall i, j :: 0 <= i < j < |xs| ==> xs[i] != xs[j]
    requires forall i :: 0 <= i < |xs| ==> 1 <= xs[i] <= n
    ensures |xs| <= n
  {
    if xs != [] {
      assert 1 <= xs[0] <= n;
      if n !in xs {
        Pigeonhole(xs, n - 1);
      } else {
        var k :| 0 <= k < |xs| && xs[k] == n;
        Pigeonhole(xs[..k] + xs[k + 1..], n - 1);
      }
    }
  }

  /** However automatic and manual retries race, at most max(maxAttempts, 10) requests go out. */
  lemma RequestsBounded(run: Run, n: nat)
    requires run.Valid() && n < |run.states|
    ensures |run.states[n].requests| <= Max(run.states[0].maxAttempts, 10)
  {
    RunInv(run, n);
    Pigeonhole(run.states[n].requests, Bound(run.states[n]));
  }

  /** A claim whose token is still the row's has the row's attempt count too. */
  lemma TokenMeansAttempts(run: Run, n: nat, who: nat)
    requires run.Valid() && n < |run.states| && who in run.states[n].senders
    requires ClaimOf(run.states[n].senders[who]).Some? && run.states[n].row.Some?
    requires ClaimOf(run.states[n].senders[who]).value.token == run.states[n].row.value.token
    ensures ClaimOf(run.states[n].senders[who]).value.attempts == run.states[n].row.value.attempts
    ensures run.states[n].senders[who].attempt == run.states[n].row.value.attempts
  {
    RunInv(run, n);
    assert SenderOk(run.states[n], who, run.states[n].senders[who]);
  }

  /** A success is final: no later step changes any column of the row. */
  lemma {:induction false} SuccessIsFinal(run: Run, i: nat, j: nat)
    requires run.Valid() && i <= j < |run.states|
    requires run.states[i].row.Some? && run.states[i].row.value.status == Succeeded
    ensures run.states[j].row == run.states[i].row
    decreases j
  {
    if i < j {
      SuccessIsFinal(run, i, j - 1);
      RunInv(run, j - 1);
      assert Follows(run.states[j - 1], run.ops[j - 1], run.states[j]);
      StepsRow(run.states[j - 1], run.ops[j - 1]);
    }
  }

  // ---------------------------------------------------------------------------
  // Old tokens
  // ---------------------------------------------------------------------------

  /** Token `token` once was the row's and no longer is. */
  ghost predicate Stale(s: State, token: int) {
    s.row.Some? && token < s.row.value.token
  }

  lemma {:induction false} StaleStays(run: Run, i: nat, j: nat, token: int)
    requires run.Valid() && i <= j < |run.states| && Stale(run.states[i], token)
    ensures Stale(run.states[j], token)
    decreases j
  {
    if i < j {
      StaleStays(run, i, j - 1, token);
      RunInv(run, j - 1);
      assert Follows(run.states[j - 1], run.ops[j - 1], run.states[j]);
      StepsRow(run.states[j - 1], run.ops[j - 1]);
    }
  }

  /** Once another sender has claimed the row, the holder of the old token never changes it
      again, whether it records or releases. */
  lemma OldTokenNeverWrites(run: Run, i: nat, j: nat, c: Claim)
    requires run.Valid() && i <= j < |run.ops| && Stale(run.states[i], c.token)
    requires (run.ops[j].Record? || run.ops[j].Release?) && run.ops[j].who in run.states[j].senders
    requires ClaimOf(run.states[j].senders[run.ops[j].who]) == Some(c)
    ensures run.states[j + 1].row == run.states[j].row
  {
    StaleStays(run, i, j, c.token);
    assert Follows(run.states[j], run.ops[j], run.states[j + 1]);
  }

  // ---------------------------------------------------------------------------
  // One sender at a time
  // ---------------------------------------------------------------------------

  /** The step claims the row for sender `who`. */
  ghost predicate Claims(s: State, op: Op) {
    && op.TryClaim? && op.who in s.senders && (s.senders[op.who].Ready? || s.senders[op.who].Observed?)
    && CanClaim(s.row, s.now, Expected(s.senders[op.who]), Cap(s.senders[op.who]))
  }

  ghost predicate Writes(op: Op, who: nat) {
    (op.Record? || op.Release?) && op.who == who
  }

  /** The claim made at time `at` under `token` still stands. */
  ghost predicate Stands(s: State, who: nat, token: int, at: int) {
    && s.row.Some? && s.row.value.token == token && s.row.value.claimedAt == Some(at)
    && forall x :: x in s.senders && x != who && ClaimOf(s.senders[x]).Some? ==>
                     ClaimOf(s.senders[x]).value.token != token
  }

  lemma StandsOn(s: State, op: Op, who: nat, token: int, at: int)
    requires Inv(s) && Enabled(s, op) && Stands(s, who, token, at)
    requires s.now <= at + STALE_CLAIM && !Writes(op, who)
    ensures Stands(Apply(s, op), who, token, at)
  {
    if !op.Tick? && op.who in s.senders {
      assert SenderOk(s, op.who, s.senders[op.who]);
    }
  }

  lemma ClaimStands(s: State, op: Op)
    requires Inv(s) && Enabled(s, op) && Claims(s, op) && (op.write.Lands? || op.write.landed)
    ensures Stands(Apply(s, op), op.who, s.row.value.token + 1, s.now)
  {
    forall x | x in s.senders && x != op.who && ClaimOf(s.senders[x]).Some?
      ensures ClaimOf(s.senders[x]).value.token != s.row.value.token + 1
    {
      assert SenderOk(s, x, s.senders[x]);
    }
  }

  lemma {:induction false} StandsThrough(run: Run, i: nat, j: nat, who: nat, token: int, at: int)
    requires run.Valid() && i <= j < |run.states| && Stands(run.states[i], who, token, at)
    requires forall k :: i <= k < j ==> !Writes(run.ops[k], who)
    requires run.states[j].now <= at + STALE_CLAIM
    ensures Stands(run.states[j], who, token, at)
    decreases j
  {
    if i < j {
      assert Follows(run.states[j - 1], run.ops[j - 1], run.states[j]);
      StandsThrough(run, i, j - 1, who, token, at);
      RunInv(run, j - 1);
      StandsOn(run.states[j - 1], run.ops[j - 1], who, token, at);
    }
  }

  /** Within two minutes of a claim, and until its holder writes, no other claim succeeds. */
  lemma ClaimExcludes(run: Run, i: nat, j: nat)
    requires run.Valid() && i < j < |run.ops|
    requires Claims(run.states[i], run.ops[i]) && (run.ops[i].write.Lands? || run.ops[i].write.landed)
    requires forall k :: i < k < j ==> !Writes(run.ops[k], run.ops[i].who)
    requires run.states[j].now <= run.states[i].now + STALE_CLAIM
    ensures !Claims(run.states[j], run.ops[j])
  {
    RunInv(run, i);
    assert Follows(run.states[i], run.ops[i], run.states[i + 1]);
    ClaimStands(run.states[i], run.ops[i]);
    StandsThrough(run, i + 1, j, run.ops[i].who, run.states[i].row.value.token + 1, run.states[i].now);
  }

  // ---------------------------------------------------------------------------
  // Stopping
  // ---------------------------------------------------------------------------

  /** The sender's request was answered with a success. */
  ghost predicate Satisfied(b: Sender) {
    b.Done? || ((b.Sent? || b.Releasing?) && b.outcome.Delivered?)
  }

  /** A sender whose request was delivered never sends again, whatever becomes of its row
      write. */
  lemma {:induction false} DeliveredStops(run: Run, i: nat, j: nat, who: nat)
    requires run.Valid() && i <= j < |run.states| && who in run.states[i].senders
    requires Satisfied(run.states[i].senders[who])
    ensures who in run.states[j].senders && Satisfied(run.states[j].senders[who])
    ensures j < |run.ops| ==> !(run.ops[j].Send? && run.ops[j].who == who)
    decreases j
  {
    if i < j {
      DeliveredStops(run, i, j - 1, who);
      assert Follows(run.states[j - 1], run.ops[j - 1], run.states[j]);
    }
    if j < |run.ops| {
      assert Follows(run.states[j], run.ops[j], run.states[j + 1]);
    }
  }

  // ---------------------------------------------------------------------------
  // What the row says about the requests
  // ---------------------------------------------------------------------------

  /** An attempt that waits to be recorded was sent, with that outcome, by its sender. */
  lemma {:induction false} WasSent(run: Run, n: nat, who: nat) returns (i: nat)
    requires run.Valid() && n < |run.states| && who in run.states[n].senders
    requires run.states[n].senders[who].Sent? || run.states[n].senders[who].Releasing?
    ensures i < n && run.ops[i] == Send(who, run.states[n].senders[who].outcome)
  {
    assert n > 0;
    var s, op := run.states[n - 1], run.ops[n - 1];
    assert Follows(s, op, run.states[n]);
    if op == Send(who, run.states[n].senders[who].outcome) {
      i := n - 1;
    } else {
      i := WasSent(run, n - 1, who);
    }
  }

  /** The row turns to success only by recording a delivered attempt. */
  lemma TurnsToSuccess(s: State, op: Op)
    requires Enabled(s, op) && Apply(s, op).row.Some? && Apply(s, op).row.value.status == Succeeded
    ensures || s.row == Apply(s, op).row
            || (op.Record? && op.who in s.senders && s.senders[op.who].Sent? && s.senders[op.who].outcome.Delivered?)
  {
  }

  /** The row says success only if some request of the delivery was answered with one. */
  lemma {:induction false} SuccessWasDelivered(run: Run, n: nat) returns (i: nat)
    requires run.Valid() && n < |run.states|
    requires run.states[n].row.Some? && run.states[n].row.value.status == Succeeded
    ensures i < n && run.ops[i].Send? && run.ops[i].outcome.Delivered?
  {
    assert n > 0;
    var s, op := run.states[n - 1], run.ops[n - 1];
    assert Follows(s, op, run.states[n]);
    TurnsToSuccess(s, op);
    if s.row == run.states[n].row {
      i := SuccessWasDelivered(run, n - 1);
    } else {
      i := WasSent(run, n - 1, op.who);
    }
  }

  /** The sender's attempt is written to the row: it took no claim, or the row still has its
      token; and the write took effect. */
  ghost predicate LandsOnRow(s: State, op: Op) {
    && op.Record? && op.who in s.senders && s.senders[op.who].Sent?
    && (op.write.Lands? || op.write.landed)
    && match s.senders[op.who].claim
       case None => true
       case Some(c) => s.row.Some? && s.row.value.token == c.token
  }

  /** A delivered attempt that is written to the row makes it a success, then and for good.
      No other outcome does: the row then stays as failed as it was, at that attempt, free
      to be claimed for the next. */
  lemma OutcomeIsRecorded(run: Run, i: nat, j: nat)
    requires run.Valid() && i < j < |run.states| && LandsOnRow(run.states[i], run.ops[i])
    ensures var s, b, t := run.states[i], run.states[i].senders[run.ops[i].who], run.states[i + 1];
            && t.row.Some? && t.row.value.attempts == b.attempt
            && (b.outcome.Delivered? ==> t.row.value.status == Succeeded && run.states[j].row == t.row)
            && (!b.outcome.Delivered? ==>
                  (t.row.value.status == Succeeded <==> s.row.Some? && s.row.value.status == Succeeded))
            && (t.row.value.status == Status.Failed ==> t.row.value.claimedAt.None?)
  {
    var s, op := run.states[i], run.ops[i];
    assert Follows(s, op, run.states[i + 1]);
    RunInv(run, i);
    assert SenderOk(s, op.who, s.senders[op.who]);
    if s.senders[op.who].outcome.Delivered? {
      SuccessIsFinal(run, i + 1, j);
    }
  }

  // ---------------------------------------------------------------------------
  // Going on
  // ---------------------------------------------------------------------------

  /** The automatic sender goes on to its next attempt exactly when this one failed with
      attempts left and no other retry has taken the row over; manual retries never do. A
      write that failed counts as not taken over. */
  lemma RetriesExactly(run: Run, i: nat)
    requires run.Valid() && i < |run.ops| && (run.ops[i].Record? || run.ops[i].Release?)
    requires run.ops[i].who in run.states[i].senders && run.ops[i].who in run.states[i + 1].senders
    requires run.states[i].senders[run.ops[i].who].Sent? || run.states[i].senders[run.ops[i].who].Releasing?
    ensures var s, op := run.states[i], run.ops[i];
            var b, a := s.senders[op.who], run.states[i + 1].senders[op.who];
            && (op.Record? && b.claim.Some? && op.write.Fails? <==> a.Releasing?)
            && (a.Ready? <==>
                  && !a.Releasing? && op.who == 0 && b.outcome.Failed? && b.attempt < run.states[0].maxAttempts
                  && (op.Record? && b.claim.Some? ==>
                        s.row.Some? && s.row.value.token == b.claim.value.token
                        && s.row.value.status == Status.Failed))
            && (a.Ready? ==> a.attempt == b.attempt + 1)
            && (!a.Ready? && !a.Releasing? ==> a.Done?)
  {
    assert Follows(run.states[i], run.ops[i], run.states[i + 1]);
    RunInv(run, i);
    var k := WasSent(run, i, run.ops[i].who);
    assert Follows(run.states[k], run.ops[k], run.states[k + 1]);
  }

  /** And then nothing stands in its way: if its failed attempt was written to the row, or its
      claim released, the next claim can succeed at once. */
  lemma NextClaimSucceeds(run: Run, i: nat)
    requires run.Valid() && i < |run.ops| && 0 in run.states[i + 1].senders && run.states[i + 1].senders[0].Ready?
    requires || LandsOnRow(run.states[i], run.ops[i])
             || (run.ops[i].Release? && run.ops[i].landed && Owned(run.states[i], run.ops[i].who))
    requires run.ops[i].who == 0
    ensures Claims(run.states[i + 1], TryClaim(0, Lands))
  {
    var s, op := run.states[i], run.ops[i];
    assert Follows(s, op, run.states[i + 1]);
    RunInv(run, i);
    assert SenderOk(s, 0, s.senders[0]);
  }

  /** The sender's claim is the row's, and the row has not succeeded. */
  ghost predicate Owned(s: State, who: nat) {
    && who in s.senders && ClaimOf(s.senders[who]).Some?
    && s.row.Some? && s.row.value.token == ClaimOf(s.senders[who]).value.token
    && s.row.value.status == Status.Failed
  }

  // ---------------------------------------------------------------------------
  // Who may send
  // ---------------------------------------------------------------------------

  /** The row can be claimed by a sender in state `b`: it has failed, its attempt count is the
      one the sender goes by, a manual retry is within its cap, and no claim on it is two
      minutes old or less. */
  ghost predicate Claimable(s: State, b: Sender) {
    && (b.Ready? || b.Observed?)
    && s.row.Some? && s.row.value.status == Status.Failed
    && s.row.value.attempts == (if b.Ready? then b.attempt - 1 else b.seen)
    && (b.Observed? ==> s.row.value.attempts < 10)
    && !(s.row.value.claimedAt.Some? && s.now - s.row.value.claimedAt.value <= 120000)
  }

  /** A sender is cleared to send in three ways only: it is the first attempt; it has claimed
      the row, and then its attempt is the next one and its token a new one; or, for the
      automatic sender alone, its claim missed and there is no row at all. A claim that the
      database did not confirm ends the sender, and so does a miss for a manual retry. */
  lemma ClearedExactly(run: Run, i: nat)
    requires run.Valid() && i < |run.ops| && !run.ops[i].Tick? && run.ops[i].who in run.states[i + 1].senders
    requires run.ops[i].Begin? || run.ops[i].TryClaim? || run.ops[i].Look?
    requires run.ops[i].who in run.states[i].senders
    ensures var s, op := run.states[i], run.ops[i];
            var b, a := s.senders[op.who], run.states[i + 1].senders[op.who];
            && (op.Begin? ==> a == Cleared(1, None))
            && (op.TryClaim? && op.write.Fails? ==> a == Done)
            && (op.TryClaim? && op.write.Lands? && Claimable(s, b) ==>
                  && s.row.Some?
                  && var n, t := s.row.value.attempts + 1, s.row.value.token + 1;
                  a == Cleared(n, Some(Claim(n, t))) && run.states[i + 1].row == Some(Row(Status.Failed, n, t, Some(s.now))))
            && (op.TryClaim? && op.write.Lands? && !Claimable(s, b) ==>
                  a == (if b.Ready? then Missed(b.attempt) else Done) && run.states[i + 1].row == s.row)
            && (b.Ready? || b.Missed? ==> op.who == 0)
            && (op.Look? ==> a == if s.row.None? then Cleared(b.attempt, None) else Done)
  {
    var s, op := run.states[i], run.ops[i];
    assert Follows(s, op, run.states[i + 1]);
    RunInv(run, i);
    assert SenderOk(s, op.who, s.senders[op.who]);
  }

  /** A manual retry goes on from its read exactly when the row is a failed one, with the
      attempt count it read. */
  lemma ManualRetryReads(run: Run, i: nat)
    requires run.Valid() && i < |run.ops| && run.ops[i].Read? && run.ops[i].who in run.states[i + 1].senders
    ensures var row := run.states[i].row;
            run.states[i + 1].senders[run.ops[i].who]
            == if row.Some? && row.value.status == Status.Failed then Observed(row.value.attempts) else Done
  {
    assert Follows(run.states[i], run.ops[i], run.states[i + 1]);
  }
}
