/** The lease protocol over whole runs: fencing, retries, lease lengths and backoff. */
module LeaseRuns {
  import opened Wrappers
  import opened JobTable
  import opened LeaseLaws

  /** Any interleaving of steps, from an empty table. */
  datatype Run = Run(states: seq<Db>, ops: seq<Op>) {
    ghost predicate Valid() {
      && |states| == |ops| + 1
      && Init(states[0])
      && forall i {:trigger ops[i]} :: 0 <= i < |ops| ==> Follows(states[i], ops[i], states[i + 1])
    }
  }

  ghost predicate Follows(db: Db, op: Op, next: Db) {
    Enabled(db, op) && next == Apply(db, op)
  }

  /** Every reachable table satisfies the invariant. */
  lemma {:induction false} RunInv(run: Run, i: nat)
    requires run.Valid() && i < |run.states|
    ensures Inv(run.states[i])
  {
    if i == 0 {
      InitInv(run.states[0]);
    } else {
      RunInv(run, i - 1);
      assert Follows(run.states[i - 1], run.ops[i - 1], run.states[i]);
      StepKeepsInv(run.states[i - 1], run.ops[i - 1]);
    }
  }

  // ---------------------------------------------------------------------------
  // Fencing
  // ---------------------------------------------------------------------------

  /** The caller whose token a step presents. */
  ghost function Presented(db: Db, op: Op): Option<Caller> {
    match op
    case Complete(c) => Some(c)
    case ReadFail(_, c) => Some(c)
    case WriteFail(call, _, _, _) => if call in db.calls then Some(db.calls[call].caller) else None
    case Renew(c, _, _) => Some(c)
    case _ => None
  }

  /** The step's guarded statement finds its row. */
  ghost predicate Succeeds(db: Db, op: Op) {
    Presented(db, op).Some? && Holds(db, Presented(db, op).value)
  }

  ghost predicate Settles(db: Db, op: Op) {
    (op.Complete? || op.WriteFail?) && Succeeds(db, op)
  }

  /** The step presents token `t`, for whichever job. */
  ghost predicate Presents(db: Db, op: Op, t: Token) {
    Presented(db, op).Some? && Presented(db, op).value.lease == Some(t)
  }

  /** An issued token in force on no job at all. */
  ghost predicate Spent(db: Db, t: Token) {
    Issued(db, t) && forall id :: !Live(db, id, t)
  }

  lemma SpentAfter(db: Db, op: Op, t: Token)
    requires ClaimsOk(db) && Enabled(db, op) && Spent(db, t)
    ensures Spent(Apply(db, op), t)
  {
    IssuedStays(db, op, t);
    forall id | Live(Apply(db, op), id, t)
      ensures false
    {
      LiveBackward(db, op, id, t);
    }
  }

  lemma {:induction false} SpentStays(run: Run, i: nat, j: nat, t: Token)
    requires run.Valid() && i <= j < |run.states| && Spent(run.states[i], t)
    ensures Spent(run.states[j], t)
    decreases j
  {
    if i < j {
      SpentStays(run, i, j - 1, t);
      assert Follows(run.states[j - 1], run.ops[j - 1], run.states[j]);
      RunInv(run, j - 1);
      SpentAfter(run.states[j - 1], run.ops[j - 1], t);
    }
  }

  /** A token's row holds it alone, so if that lease is not in force, or a step ends it, the
      token is spent. */
  lemma SpentOnItsRow(db: Db, id: JobId, t: Token)
    requires Inv(db) && id in db.jobs && db.jobs[id].leaseId == Some(t) && !Live(db, id, t)
    ensures Spent(db, t)
  {
  }

  lemma SpentByStep(db: Db, op: Op, id: JobId, t: Token)
    requires Inv(db) && Enabled(db, op) && id in db.jobs && db.jobs[id].leaseId == Some(t)
    requires !Live(Apply(db, op), id, t)
    ensures Spent(Apply(db, op), t)
  {
    assert Issued(db, t);
    IssuedStays(db, op, t);
    forall b | Live(Apply(db, op), b, t)
      ensures false
    {
      LiveBackward(db, op, b, t);
    }
  }

  /** Once an issued token is in force on no job, for whatever reason, no complete, fail or
      renewal with it ever succeeds again, whichever job it names. */
  lemma FencedForever(run: Run, i: nat, j: nat, t: Token)
    requires run.Valid() && i <= j < |run.ops| && Spent(run.states[i], t)
    requires Presents(run.states[j], run.ops[j], t)
    ensures !Succeeds(run.states[j], run.ops[j])
  {
    SpentStays(run, i, j, t);
    assert !Live(run.states[j], Presented(run.states[j], run.ops[j]).value.job, t);
  }

  /** The step commits a claim that leases job `id`. */
  ghost predicate Leases(db: Db, op: Op, id: JobId) {
    op.CommitClaim? && op.txn in db.claims && id in db.claims[op.txn].chosen
  }

  /** A token is good for one job only: wherever it is in force later, that is the job that
      carries it now. */
  lemma {:induction false} OnlyOnItsJob(run: Run, i: nat, j: nat, a: JobId, b: JobId, t: Token)
    requires run.Valid() && i <= j < |run.states|
    requires a in run.states[i].jobs && run.states[i].jobs[a].leaseId == Some(t) && Live(run.states[j], b, t)
    ensures a == b
    decreases j
  {
    RunInv(run, i);
    if i < j {
      IssuedThrough(run, i, j - 1, t);
      assert Follows(run.states[j - 1], run.ops[j - 1], run.states[j]);
      RunInv(run, j - 1);
      LiveBackward(run.states[j - 1], run.ops[j - 1], b, t);
      OnlyOnItsJob(run, i, j - 1, a, b, t);
    }
  }

  /** So when the lease a claim granted is over, its token is: from then on no call with it,
      on that job or any other, succeeds. */
  lemma LeaseOverForever(run: Run, i: nat, k: nat, j: nat, a: JobId, t: Token)
    requires run.Valid() && i < k <= j < |run.ops| && Leases(run.states[i], run.ops[i], a)
    requires t == TokenFor(run.states[i].claims[run.ops[i].txn], a) && !Live(run.states[k], a, t)
    requires Presents(run.states[j], run.ops[j], t)
    ensures !Succeeds(run.states[j], run.ops[j])
  {
    assert Follows(run.states[i], run.ops[i], run.states[i + 1]);
    RunInv(run, i);
    CommitLeases(run.states[i], run.ops[i].txn, a);
    IssuedThrough(run, i + 1, k, t);
    forall b | Live(run.states[k], b, t)
      ensures false
    {
      OnlyOnItsJob(run, i + 1, k, a, b, t);
    }
    FencedForever(run, k, j, t);
  }

  lemma SettlementSpends(db: Db, op: Op)
    requires Inv(db) && Enabled(db, op) && Settles(db, op)
    ensures var c := Presented(db, op).value; c.lease.Some? && Spent(Apply(db, op), c.lease.value)
  {
    var c := Presented(db, op).value;
    HoldsLive(db, c);
    assert Apply(db, op).jobs[c.job] == StepRow(db, op, c.job);
    SpentByStep(db, op, c.job, c.lease.value);
  }

  /** At most one complete or fail succeeds under a token, and after it nothing with that
      token, whichever jobs the two calls name. */
  lemma OneSettlementPerToken(run: Run, i: nat, j: nat, t: Token)
    requires run.Valid() && i < j < |run.ops|
    requires Settles(run.states[i], run.ops[i]) && Presents(run.states[i], run.ops[i], t)
    requires Presents(run.states[j], run.ops[j], t)
    ensures !Succeeds(run.states[j], run.ops[j])
  {
    RunInv(run, i);
    assert Follows(run.states[i], run.ops[i], run.states[i + 1]);
    SettlementSpends(run.states[i], run.ops[i]);
    FencedForever(run, i + 1, j, t);
  }

  ghost predicate TakesBack(op: Op) {
    op.Recover? || op.ReleaseDeregistered? || op.ReleaseLocal?
  }

  /** A lease that recovery or a release took back is over for good: its token is fenced out
      of every job. */
  lemma TakenBackForever(run: Run, i: nat, j: nat, id: JobId, t: Token)
    requires run.Valid() && i < j < |run.ops| && TakesBack(run.ops[i])
    requires id in run.states[i].jobs && run.states[i].jobs[id].leaseId == Some(t)
    requires run.states[i + 1].jobs[id] != run.states[i].jobs[id]
    requires Presents(run.states[j], run.ops[j], t)
    ensures !Succeeds(run.states[j], run.ops[j])
  {
    RunInv(run, i);
    var db, op := run.states[i], run.ops[i];
    assert Follows(db, op, run.states[i + 1]);
    assert run.states[i + 1].jobs[id] == StepRow(db, op, id);
    SpentByStep(db, op, id, t);
    FencedForever(run, i + 1, j, t);
  }

  /** An expired lease stays expired: no step, a renewal least of all, brings its token back
      into force anywhere. */
  lemma ExpiredForever(run: Run, i: nat, j: nat, id: JobId, t: Token)
    requires run.Valid() && i <= j < |run.states|
    requires id in run.states[i].jobs && run.states[i].jobs[id].leaseId == Some(t)
    requires Expired(run.states[i].jobs[id], run.states[i].now)
    ensures Spent(run.states[j], t)
  {
    RunInv(run, i);
    SpentOnItsRow(run.states[i], id, t);
    SpentStays(run, i, j, t);
  }

  /** A live lease ends in three ways only: its own holder settles the job, its time runs out,
      or the process of the worker that holds it shuts down. Recovery and deregistration leave
      it alone, and a renewal, however short, does not end it. */
  lemma LeaseEndsOnlySo(run: Run, i: nat, id: JobId, t: Token)
    requires run.Valid() && i < |run.ops| && Live(run.states[i], id, t) && !Live(run.states[i + 1], id, t)
    ensures var db, op := run.states[i], run.ops[i];
            || (op.Tick? && Expired(db.jobs[id], op.now))
            || (op.ReleaseLocal? && db.jobs[id].worker.Some?
                && (db.jobs[id].worker.value, db.jobs[id].org) in op.workers)
            || (Settles(db, op) && Presents(db, op, t) && Presented(db, op).value.job == id)
  {
    var db, op := run.states[i], run.ops[i];
    RunInv(run, i);
    assert Follows(db, op, run.states[i + 1]);
    assert RowOk(db.jobs[id]);
    assert run.states[i + 1].jobs[id] == StepRow(db, op, id);
    if op.CommitClaim? {
      HeldIsUnlocked(db, id);
    }
  }

  ghost predicate Finished(r: Row) {
    r.status.Completed? || r.status.DeadLetter?
  }

  /** A completed or dead-lettered job stays so, with the same count: it never runs again. */
  lemma {:induction false} FinishedForever(run: Run, i: nat, j: nat, id: JobId)
    requires run.Valid() && i <= j < |run.states|
    requires id in run.states[i].jobs && Finished(run.states[i].jobs[id])
    ensures id in run.states[j].jobs
    ensures run.states[j].jobs[id].status == run.states[i].jobs[id].status
    ensures run.states[j].jobs[id].retryCount == run.states[i].jobs[id].retryCount
    decreases j
  {
    if i < j {
      FinishedForever(run, i, j - 1, id);
      var db, op := run.states[j - 1], run.ops[j - 1];
      RunInv(run, j - 1);
      assert Follows(db, op, run.states[j]);
      FinishedStays(db, op, id);
    }
  }

  lemma FinishedStays(db: Db, op: Op, id: JobId)
    requires RowsOk(db) && ClaimsOk(db) && Enabled(db, op) && id in db.jobs && Finished(db.jobs[id])
    ensures id in Apply(db, op).jobs
    ensures Apply(db, op).jobs[id].status == db.jobs[id].status
    ensures Apply(db, op).jobs[id].retryCount == db.jobs[id].retryCount
  {
    assert Apply(db, op).jobs[id] == StepRow(db, op, id);
    if Leases(db, op, id) {
      var c := db.claims[op.txn];
      assert ClaimOk(db, c);
    }
  }

  /** A committing claim gives out tokens nobody was ever given before. */
  lemma TokensIssuedOnce(run: Run, i: nat, j: nat, a: JobId, b: JobId)
    requires run.Valid() && i < j < |run.ops|
    requires Leases(run.states[i], run.ops[i], a) && Leases(run.states[j], run.ops[j], b)
    ensures TokenFor(run.states[i].claims[run.ops[i].txn], a) != TokenFor(run.states[j].claims[run.ops[j].txn], b)
  {
    var db, op := run.states[i], run.ops[i];
    var c, d := db.claims[op.txn], run.states[j].claims[run.ops[j].txn];
    RunInv(run, i);
    RunInv(run, j);
    assert ClaimOk(db, c) && ClaimOk(run.states[j], d);
    assert Follows(db, op, run.states[i + 1]);
    TokenOrigin(c, a);
    TokenOrigin(d, b);
    IssuedThrough(run, i + 1, j, TokenFor(c, a));
    assert run.ops[j].txn in run.states[j].claims;
  }

  lemma {:induction false} IssuedThrough(run: Run, i: nat, j: nat, t: Token)
    requires run.Valid() && i <= j < |run.states| && Issued(run.states[i], t)
    ensures Issued(run.states[j], t)
    decreases j
  {
    if i < j {
      IssuedThrough(run, i, j - 1, t);
      assert Follows(run.states[j - 1], run.ops[j - 1], run.states[j]);
      IssuedStays(run.states[j - 1], run.ops[j - 1], t);
    }
  }

  // ---------------------------------------------------------------------------
  // Claims
  // ---------------------------------------------------------------------------

  /** Claims in flight at the same time hold different jobs, and each of their jobs is still
      waiting, so a commit leases exactly what its selection locked. */
  lemma ConcurrentClaimsDisjoint(run: Run, i: nat, x: nat, y: nat, id: JobId)
    requires run.Valid() && i < |run.states| && x in run.states[i].claims && y in run.states[i].claims
    requires id in run.states[i].claims[x].chosen
    ensures Waiting(run.states[i], id, run.states[i].claims[x].at)
    ensures x != y ==> id !in run.states[i].claims[y].chosen
  {
    RunInv(run, i);
    var c := run.states[i].claims[x];
    assert ClaimOk(run.states[i], c);
    var k :| 0 <= k < |c.chosen| && c.chosen[k] == id;
    assert Waiting(run.states[i], c.chosen[k], c.at);
  }

  /** A committed claim leaves each of its jobs processing, held by the claim's worker under
      the job's own token, until the granted 5 to 3600 seconds after the claim was made. */
  lemma CommitLeases(db: Db, txn: nat, id: JobId)
    requires Inv(db) && txn in db.claims && id in db.claims[txn].chosen
    ensures var c, after := db.claims[txn], Apply(db, CommitClaim(txn));
            && id in db.jobs && id in after.jobs && Issued(after, TokenFor(c, id))
            && after.jobs[id].status.Processing? && after.jobs[id].worker == Some(c.worker)
            && after.jobs[id].leaseId == Some(TokenFor(c, id))
            && after.jobs[id].leaseExpiresAt == Some(c.at + c.secs * SECOND)
            && MIN_LEASE_SECS <= c.secs <= MAX_LEASE_SECS
            && after.jobs[id].retryCount == db.jobs[id].retryCount
  {
    var c := db.claims[txn];
    assert ClaimOk(db, c);
    var k :| 0 <= k < |c.chosen| && c.chosen[k] == id;
    assert Waiting(db, c.chosen[k], c.at);
    TokenOrigin(c, id);
  }

  // ---------------------------------------------------------------------------
  // Enqueueing
  // ---------------------------------------------------------------------------

  lemma {:induction false} KeyStaysTaken(run: Run, i: nat, j: nat, org: string, key: Option<string>)
    requires run.Valid() && i <= j < |run.states| && KeyTaken(run.states[i], org, key)
    ensures KeyTaken(run.states[j], org, key)
    decreases j
  {
    if i < j {
      KeyStaysTaken(run, i, j - 1, org, key);
      var db, op := run.states[j - 1], run.ops[j - 1];
      assert Follows(db, op, run.states[j]);
      var id :| id in db.jobs && db.jobs[id].org == org && db.jobs[id].idempotencyKey == key;
      assert run.states[j].jobs[id] == StepRow(db, op, id);
    }
  }

  /** Of all the enqueues of a run that share an organization and an idempotency key, one
      only inserts a job. */
  lemma EnqueueOncePerKey(run: Run, i: nat, j: nat)
    requires run.Valid() && i < j < |run.ops| && run.ops[i].Enqueue? && run.ops[j].Enqueue?
    requires run.ops[i].job.org == run.ops[j].job.org && run.ops[i].job.idempotencyKey.Some?
    requires run.ops[i].job.idempotencyKey == run.ops[j].job.idempotencyKey
    requires Inserts(run.states[i], run.ops[i])
    ensures !Inserts(run.states[j], run.ops[j])
  {
    var op := run.ops[i];
    assert Follows(run.states[i], op, run.states[i + 1]);
    assert run.states[i + 1].jobs[op.id] == NewRow(op.job, op.at);
    KeyStaysTaken(run, i + 1, j, op.job.org, op.job.idempotencyKey);
  }

  // ---------------------------------------------------------------------------
  // Settleable or recoverable
  // ---------------------------------------------------------------------------

  /** The caller that holds the lease of a processing job. */
  ghost function Holder(db: Db, id: JobId): Caller
    requires id in db.jobs && db.jobs[id].worker.Some?
  {
    Caller(id, db.jobs[id].worker.value, db.jobs[id].org, db.jobs[id].leaseId, None)
  }

  /** At every instant a processing job can be settled by its holder or recovered: never
      both, never neither. */
  lemma SettleableXorRecoverable(run: Run, i: nat, id: JobId)
    requires run.Valid() && i < |run.states| && id in run.states[i].jobs && run.states[i].jobs[id].status.Processing?
    ensures run.states[i].jobs[id].worker.Some?
    ensures Holds(run.states[i], Holder(run.states[i], id))
            <==> Apply(run.states[i], Recover).jobs[id] == run.states[i].jobs[id]
  {
    RunInv(run, i);
    assert RowOk(run.states[i].jobs[id]);
    assert Apply(run.states[i], Recover).jobs[id] == StepRow(run.states[i], Recover, id);
  }

  // ---------------------------------------------------------------------------
  // Failing
  // ---------------------------------------------------------------------------

  /** However much happened since the read: if the write of a fail call applies, it decides
      on the counts the row has now. Read and write act as one step. */
  lemma FailIsAtomic(run: Run, i: nat)
    requires run.Valid() && i < |run.ops| && run.ops[i].WriteFail? && Succeeds(run.states[i], run.ops[i])
    ensures var db, op := run.states[i], run.ops[i];
            var id := db.calls[op.call].caller.job;
            var r := db.jobs[id];
            && id in run.states[i + 1].jobs
            && run.states[i + 1].jobs[id] == Failed(r, r.retryCount, r.maxRetries, op.at, op.jitter)
            && (Buries(db, op) <==> r.retryCount == r.maxRetries)
  {
    RunInv(run, i);
    var db, op := run.states[i], run.ops[i];
    assert Follows(db, op, run.states[i + 1]);
    SnapshotCurrent(db, op.call);
    var id := db.calls[op.call].caller.job;
    assert RowOk(db.jobs[id]);
    assert run.states[i + 1].jobs[id] == StepRow(db, op, id);
  }

  ghost predicate FailsJob(db: Db, op: Op, id: JobId) {
    op.WriteFail? && Succeeds(db, op) && Presented(db, op).value.job == id
  }

  ghost predicate ReturnsJob(db: Db, op: Op, id: JobId) {
    op.ReleaseDeregistered? && id in db.jobs && DeregisterReleases(db.jobs[id], db.now, op.worker, op.org)
  }

  /** Successful failures of `id`, and releases by deregistration, among the first `n` steps. */
  ghost function Failures(run: Run, id: JobId, n: nat): nat
    requires n <= |run.ops| < |run.states|
  {
    if n == 0 then 0
    else Failures(run, id, n - 1) + if FailsJob(run.states[n - 1], run.ops[n - 1], id) then 1 else 0
  }

  ghost function Returns(run: Run, id: JobId, n: nat): nat
    requires n <= |run.ops| < |run.states|
  {
    if n == 0 then 0
    else Returns(run, id, n - 1) + if ReturnsJob(run.states[n - 1], run.ops[n - 1], id) then 1 else 0
  }

  ghost function UsedBy(r: Row): int {
    r.retryCount + if r.status.DeadLetter? then 1 else 0
  }

  /** Retries used up by a job. */
  ghost function Used(db: Db, id: JobId): int {
    if id in db.jobs then UsedBy(db.jobs[id]) else 0
  }

  lemma RowUses(db: Db, op: Op, id: JobId)
    requires RowsOk(db) && ClaimsOk(db) && CallsOk(db) && Enabled(db, op) && id in db.jobs
    ensures UsedBy(StepRow(db, op, id)) == UsedBy(db.jobs[id])
            + (if FailsJob(db, op, id) then 1 else 0) + (if ReturnsJob(db, op, id) then 1 else 0)
  {
    assert RowOk(db.jobs[id]);
    BuriedExactly(db, op, id);
    match op
    case CommitClaim(txn) =>
    case WriteFail(call, _, _, _) =>
      if FailsJob(db, op, id) {
        SnapshotCurrent(db, call);
      }
    case _ =>
  }

  lemma StepUses(db: Db, op: Op, id: JobId)
    requires RowsOk(db) && ClaimsOk(db) && CallsOk(db) && Enabled(db, op)
    ensures Used(Apply(db, op), id) == Used(db, id)
            + (if FailsJob(db, op, id) then 1 else 0) + (if ReturnsJob(db, op, id) then 1 else 0)
  {
    if id in db.jobs {
      assert Apply(db, op).jobs[id] == StepRow(db, op, id);
      RowUses(db, op, id);
    }
  }

  /** The ledger of a job: every failure and every release is counted once, the last failure
      of a dead letter included. */
  lemma {:induction false} RetryLedger(run: Run, id: JobId, n: nat)
    requires run.Valid() && n <= |run.ops|
    ensures Failures(run, id, n) + Returns(run, id, n) == Used(run.states[n], id)
  {
    if n > 0 {
      RetryLedger(run, id, n - 1);
      RunInv(run, n - 1);
      assert Follows(run.states[n - 1], run.ops[n - 1], run.states[n]);
      StepUses(run.states[n - 1], run.ops[n - 1], id);
    }
  }

  /** Retries never exceed their limit, a job fails at most once more than that, and it has a
      dead-letter row, one only, exactly when it is dead-lettered. */
  lemma FailuresBounded(run: Run, id: JobId, n: nat)
    requires run.Valid() && n <= |run.ops| && id in run.states[n].jobs
    ensures var r := run.states[n].jobs[id];
            && 0 <= r.retryCount <= r.maxRetries
            && Failures(run, id, n) <= r.maxRetries + 1
            && Burials(run.states[n].deadLetters, id) == if r.status.DeadLetter? then 1 else 0
  {
    RunInv(run, n);
    RetryLedger(run, id, n);
    assert RowOk(run.states[n].jobs[id]);
  }

  // ---------------------------------------------------------------------------
  // Backoff
  // ---------------------------------------------------------------------------

  lemma {:induction false} Pow2Grows(a: nat, b: nat)
    requires a <= b
    ensures Pow2(a) <= Pow2(b)
    decreases b
  {
    if a < b {
      Pow2Grows(a, b - 1);
    }
  }

  /** Clamping the exponent changes nothing: the backoff is the power of two, at most 60. */
  lemma BackoffIsCappedPower(r: nat)
    ensures BackoffSecs(r) == Min(Pow2(r), 60)
  {
    if r > 6 {
      Pow2Grows(6, r);
    }
  }

  /** The job cannot be leased before `bound`: it is not locked, and waits until then. */
  ghost predicate WaitsUntil(db: Db, id: JobId, bound: int) {
    || bound <= db.now
    || (id in db.jobs && db.jobs[id].status.Scheduled? && !Locked(db, id)
        && db.jobs[id].scheduledAt.Some? && db.jobs[id].scheduledAt.value >= bound)
  }

  lemma WaitsOn(db: Db, op: Op, id: JobId, bound: int)
    requires RowsOk(db) && Enabled(db, op) && WaitsUntil(db, id, bound)
    ensures WaitsUntil(Apply(db, op), id, bound)
  {
    var after := Apply(db, op);
    if db.now < bound {
      assert after.jobs[id] == StepRow(db, op, id);
      assert RowOk(db.jobs[id]);
      if op.CommitClaim? {
        assert id !in db.claims[op.txn].chosen;
      }
      forall x | x in after.claims
        ensures id !in after.claims[x].chosen
      {
        if x in db.claims {
          assert id !in db.claims[x].chosen;
        }
      }
    }
  }

  lemma {:induction false} WaitsThrough(run: Run, i: nat, j: nat, id: JobId, bound: int)
    requires run.Valid() && i <= j < |run.states| && WaitsUntil(run.states[i], id, bound)
    ensures WaitsUntil(run.states[j], id, bound)
    decreases j
  {
    if i < j {
      WaitsThrough(run, i, j - 1, id, bound);
      RunInv(run, j - 1);
      assert Follows(run.states[j - 1], run.ops[j - 1], run.states[j]);
      WaitsOn(run.states[j - 1], run.ops[j - 1], id, bound);
    }
  }

  lemma HeldIsUnlocked(db: Db, id: JobId)
    requires Inv(db) && id in db.jobs && db.jobs[id].status.Processing?
    ensures !Locked(db, id)
  {
    forall x | x in db.claims
      ensures id !in db.claims[x].chosen
    {
      assert ClaimOk(db, db.claims[x]);
    }
  }

  /** A job that failed at time `at` with retry count r is not leased again before
      min(2^r, 60) seconds have passed. */
  lemma NeverLeasedEarly(run: Run, i: nat, j: nat)
    requires run.Valid() && i < j < |run.ops| && run.ops[i].WriteFail? && Succeeds(run.states[i], run.ops[i])
    requires !Buries(run.states[i], run.ops[i])
    requires Leases(run.states[j], run.ops[j], run.states[i].calls[run.ops[i].call].caller.job)
    ensures var r := run.states[i].jobs[run.states[i].calls[run.ops[i].call].caller.job];
            && 0 <= r.retryCount
            && run.states[j].now >= run.ops[i].at + Min(Pow2(r.retryCount), 60) * SECOND
  {
    var db, op := run.states[i], run.ops[i];
    var id := db.calls[op.call].caller.job;
    RunInv(run, i);
    assert Follows(db, op, run.states[i + 1]);
    FailIsAtomic(run, i);
    assert RowOk(db.jobs[id]);
    BackoffIsCappedPower(db.jobs[id].retryCount);
    HeldIsUnlocked(db, id);
    var bound := op.at + BackoffSecs(db.jobs[id].retryCount) * SECOND;
    assert run.states[i + 1].claims == db.claims;
    assert !Locked(run.states[i + 1], id);
    WaitsThrough(run, i + 1, j, id, bound);
    assert Locked(run.states[j], id);
  }

  // ---------------------------------------------------------------------------
  // Lease lengths
  // ---------------------------------------------------------------------------

  /** The length a step explicitly grants to job `id`, if it grants one. */
  ghost function Grants(db: Db, op: Op, id: JobId): Option<int> {
    match op
    case CommitClaim(txn) =>
      if txn in db.claims && id in db.claims[txn].chosen then Some(db.claims[txn].secs) else None
    case Renew(c, requested, _) =>
      if c.job == id && Holds(db, c) && requested.Some? then Some(Clamp(requested.value, 1, MAX_INT32)) else None
    case _ => None
  }

  ghost function LastGranted(run: Run, id: JobId, n: nat): Option<int>
    requires n <= |run.ops| < |run.states|
  {
    if n == 0 then None
    else
      var g := Grants(run.states[n - 1], run.ops[n - 1], id);
      if g.Some? then g else LastGranted(run, id, n - 1)
  }

  lemma StepGrants(db: Db, op: Op, id: JobId)
    requires ClaimsOk(db) && Enabled(db, op)
    ensures id in db.jobs ==>
              StepRow(db, op, id).leaseDuration
              == if Grants(db, op, id).Some? then Grants(db, op, id) else db.jobs[id].leaseDuration
    ensures id !in db.jobs ==> Grants(db, op, id).None?
  {
    if Leases(db, op, id) {
      var c := db.claims[op.txn];
      assert ClaimOk(db, c);
      var k :| 0 <= k < |c.chosen| && c.chosen[k] == id;
      assert Waiting(db, c.chosen[k], c.at);
    }
  }

  lemma {:induction false} LengthIsLastGranted(run: Run, id: JobId, n: nat)
    requires run.Valid() && n <= |run.ops|
    ensures if id in run.states[n].jobs then run.states[n].jobs[id].leaseDuration == LastGranted(run, id, n)
            else LastGranted(run, id, n).None?
  {
    if n > 0 {
      LengthIsLastGranted(run, id, n - 1);
      RunInv(run, n - 1);
      var db, op := run.states[n - 1], run.ops[n - 1];
      assert Follows(db, op, run.states[n]);
      StepGrants(db, op, id);
      if id in db.jobs {
        assert run.states[n].jobs[id] == StepRow(db, op, id);
      }
    }
  }

  /** A renewal extends the lease, from now, by the length last granted explicitly: the one
      it names, or else the one the claim or an earlier renewal named. The fallback is never
      used. */
  lemma RenewalLength(run: Run, i: nat)
    requires run.Valid() && i < |run.ops| && run.ops[i].Renew? && Succeeds(run.states[i], run.ops[i])
    ensures var op := run.ops[i];
            var id := op.caller.job;
            && LastGranted(run, id, i).Some? && LastGranted(run, id, i + 1).Some?
            && id in run.states[i + 1].jobs
            && run.states[i + 1].jobs[id].leaseExpiresAt
               == Some(run.states[i].now + LastGranted(run, id, i + 1).value * SECOND)
            && (op.requested.None? ==> LastGranted(run, id, i + 1) == LastGranted(run, id, i))
            && (op.requested.Some? && 1 <= op.requested.value <= MAX_INT32 ==>
                  LastGranted(run, id, i + 1) == op.requested)
  {
    var id := run.ops[i].caller.job;
    RunInv(run, i);
    LengthIsLastGranted(run, id, i);
    assert Follows(run.states[i], run.ops[i], run.states[i + 1]);
    RenewStep(run.states[i], run.ops[i]);
  }

  lemma RenewStep(db: Db, op: Op)
    requires RowsOk(db) && Enabled(db, op) && op.Renew? && Succeeds(db, op)
    ensures var r, q := db.jobs[op.caller.job], Apply(db, op).jobs[op.caller.job];
            && r.leaseDuration.Some? && q.leaseDuration.Some?
            && q.leaseExpiresAt == Some(db.now + q.leaseDuration.value * SECOND)
            && q.leaseDuration == if op.requested.Some? then Some(Clamp(op.requested.value, 1, MAX_INT32))
                                  else r.leaseDuration
  {
    var id := op.caller.job;
    assert RowOk(db.jobs[id]);
    assert Apply(db, op).jobs[id] == StepRow(db, op, id);
  }

  // ---------------------------------------------------------------------------
  // Classifying a miss
  // ---------------------------------------------------------------------------

  lemma {:induction false} MissStays(run: Run, i: nat, j: nat, c: Caller)
    requires run.Valid() && i <= j < |run.states| && !Holds(run.states[i], c)
    requires c.lease.Some? && Issued(run.states[i], c.lease.value)
    ensures !Holds(run.states[j], c) && Issued(run.states[j], c.lease.value)
    decreases j
  {
    if i < j {
      MissStays(run, i, j - 1, c);
      var db, op := run.states[j - 1], run.ops[j - 1];
      assert Follows(db, op, run.states[j]);
      RunInv(run, j - 1);
      IssuedStays(db, op, c.lease.value);
      if Holds(run.states[j], c) {
        HoldsBackward(db, op, c);
      }
    }
  }

  /** After a miss at `i` and any steps before the follow-up read at `j`, the read never
      reports a benign race: a live row with the caller's token and worker would have been
      updated. Nor does it ever find the caller's row requeued, since requeuing clears the
      worker. */
  lemma MissIsNeverBenign(run: Run, i: nat, j: nat, c: Caller)
    requires run.Valid() && i <= j < |run.states| && !Holds(run.states[i], c)
    requires c.lease.Some? ==> Issued(run.states[i], c.lease.value)
    ensures !ClassifyMiss(run.states[j], c).BenignRace? && !ClassifyMiss(run.states[j], c).Requeued?
  {
    RunInv(run, j);
    if c.job in run.states[j].jobs {
      assert RowOk(run.states[j].jobs[c.job]);
    }
    if c.lease.Some? {
      MissStays(run, i, j, c);
    }
  }
}
