/** What a job's row tells about the run so far, and what a step may do to it. Everything here
    is said of the columns themselves.
 */
module JobHistory {
  import opened Wrappers
  import opened QueueScopeSql
  import opened JobTable
  import opened LeaseLaws
  import opened LeaseRuns

  // ---------------------------------------------------------------------------
  // What a step may change
  // ---------------------------------------------------------------------------

  /** The columns that are written when a job is enqueued and never again. */
  ghost predicate SameJob(r: Row, q: Row) {
    && q.org == r.org && q.queue == r.queue && q.payload == r.payload && q.priority == r.priority
    && q.maxRetries == r.maxRetries && q.createdAt == r.createdAt && q.idempotencyKey == r.idempotencyKey
  }

  ghost predicate CompletesJob(db: Db, op: Op, id: JobId) {
    op.Complete? && op.caller.job == id && Holds(db, op.caller)
  }

  ghost predicate TakesJobBack(db: Db, op: Op, id: JobId)
    requires id in db.jobs
  {
    var r := db.jobs[id];
    match op
    case Recover => r.status.Processing? && r.leaseExpiresAt.Some? && r.leaseExpiresAt.value <= db.now
    case ReleaseDeregistered(worker, org) =>
      && r.status.Processing? && r.worker == Some(worker) && r.org == org && r.retryCount < r.maxRetries
      && !(r.leaseExpiresAt.Some? && r.leaseExpiresAt.value > db.now)
    case ReleaseLocal(workers) =>
      r.status.Processing? && r.worker.Some? && (r.worker.value, r.org) in workers
    case _ => false
  }

  /** A job's data never changes. Its status moves only so: a claim makes it processing, its
      holder's complete completes it, its holder's failure schedules it again or buries it,
      and taking it back makes it pending. Its schedule moves only when it fails; its expiry
      and its dependencies only from outside. */
  lemma StepChanges(db: Db, op: Op, id: JobId)
    requires ClaimsOk(db) && CallsOk(db) && Enabled(db, op) && id in db.jobs
    ensures var r, q := db.jobs[id], StepRow(db, op, id);
            && SameJob(r, q)
            && (Leases(db, op, id) ==> q.status.Processing?)
            && (CompletesJob(db, op, id) ==> q.status.Completed?)
            && (FailsJob(db, op, id) ==>
                  q.status == if r.retryCount < r.maxRetries then Scheduled else DeadLetter)
            && (TakesJobBack(db, op, id) ==> q.status.Pending?)
            && (q.status != r.status ==>
                  || Leases(db, op, id) || CompletesJob(db, op, id)
                  || FailsJob(db, op, id) || TakesJobBack(db, op, id))
            && (q.scheduledAt != r.scheduledAt ==> FailsJob(db, op, id) && q.status.Scheduled?)
            && (q.expiresAt != r.expiresAt || q.dependenciesMet != r.dependenciesMet ==>
                  op.External? && op.id == id)
  {
    if FailsJob(db, op, id) {
      SnapshotCurrent(db, op.call);
    }
  }

  /** Over any stretch of a run a job keeps its organization, queue, payload, priority, retry
      limit, age and idempotency key. */
  lemma {:induction false} DataKept(run: Run, i: nat, j: nat, id: JobId)
    requires run.Valid() && i <= j < |run.states| && id in run.states[i].jobs
    ensures id in run.states[j].jobs && SameJob(run.states[i].jobs[id], run.states[j].jobs[id])
    decreases j
  {
    if i < j {
      DataKept(run, i, j - 1, id);
      assert Follows(run.states[j - 1], run.ops[j - 1], run.states[j]);
      RunInv(run, j - 1);
      StepChanges(run.states[j - 1], run.ops[j - 1], id);
      assert run.states[j].jobs[id] == StepRow(run.states[j - 1], run.ops[j - 1], id);
    }
  }

  // ---------------------------------------------------------------------------
  // How a job came to its status
  // ---------------------------------------------------------------------------

  /** The step a job's status is owed to. */
  ghost predicate Explains(db: Db, op: Op, id: JobId, status: Status) {
    match status
    case Completed => CompletesJob(db, op, id)
    case Processing => Leases(db, op, id)
    case DeadLetter => FailsJob(db, op, id) && Buries(db, op)
    case _ => true
  }

  lemma StepExplains(db: Db, op: Op, id: JobId)
    requires ClaimsOk(db) && CallsOk(db) && Enabled(db, op) && id in db.jobs
    requires StepRow(db, op, id).status != db.jobs[id].status
    ensures Explains(db, op, id, StepRow(db, op, id).status)
  {
    StepChanges(db, op, id);
    if FailsJob(db, op, id) {
      SnapshotCurrent(db, op.call);
    }
  }

  /** A job is completed only by a complete of its own holder, processing only by a claim that
      leased it, and dead-lettered only by a failure that used up its retries: each such row
      has its step earlier in the run. */
  lemma {:induction false} StatusIsEarned(run: Run, n: nat, id: JobId) returns (i: nat)
    requires run.Valid() && n < |run.states| && id in run.states[n].jobs
    requires !run.states[n].jobs[id].status.Pending? && !run.states[n].jobs[id].status.Scheduled?
    ensures i < n && Explains(run.states[i], run.ops[i], id, run.states[n].jobs[id].status)
  {
    assert n > 0;
    var db, op := run.states[n - 1], run.ops[n - 1];
    assert Follows(db, op, run.states[n]);
    assert id in db.jobs;
    assert run.states[n].jobs[id] == StepRow(db, op, id);
    if run.states[n].jobs[id].status == db.jobs[id].status {
      i := StatusIsEarned(run, n - 1, id);
    } else {
      RunInv(run, n - 1);
      StepExplains(db, op, id);
      i := n - 1;
    }
  }

  // ---------------------------------------------------------------------------
  // Taking a job back
  // ---------------------------------------------------------------------------

  /** A processing job was due when it was leased. */
  lemma {:induction false} ProcessingWasDue(run: Run, n: nat, id: JobId)
    requires run.Valid() && n < |run.states| && id in run.states[n].jobs
    requires run.states[n].jobs[id].status.Processing?
    ensures var due := run.states[n].jobs[id].scheduledAt; due.None? || due.value <= run.states[n].now
  {
    assert n > 0;
    var db, op := run.states[n - 1], run.ops[n - 1];
    assert Follows(db, op, run.states[n]);
    RunInv(run, n - 1);
    assert id in db.jobs;
    assert run.states[n].jobs[id] == StepRow(db, op, id);
    StepChanges(db, op, id);
    if db.jobs[id].status.Processing? {
      ProcessingWasDue(run, n - 1, id);
    } else {
      var c := db.claims[op.txn];
      assert ClaimOk(db, c);
      var k :| 0 <= k < |c.chosen| && c.chosen[k] == id;
      assert Waiting(db, c.chosen[k], c.at);
    }
  }

  lemma TakeBackRow(db: Db, op: Op, id: JobId)
    requires Enabled(db, op) && TakesBack(op) && id in db.jobs
    ensures var r, q := db.jobs[id], StepRow(db, op, id);
            && (q != r <==> TakesJobBack(db, op, id))
            && (q != r ==>
                  && SameJob(r, q) && q.status.Pending?
                  && q.worker.None? && q.leaseId.None? && q.leaseExpiresAt.None?
                  && q.scheduledAt == r.scheduledAt && q.expiresAt == r.expiresAt
                  && q.dependenciesMet == r.dependenciesMet
                  && q.retryCount == r.retryCount + if op.ReleaseDeregistered? then 1 else 0)
  {
  }

  /** Recovery takes back exactly the jobs whose lease has run out, a deregistration the
      worker's own such jobs that have retries left, a shutdown the jobs of its own workers.
      Such a job is pending with its data and schedule untouched, and the very next claim on
      its queue can take it, unless it has expired or waits for another job. */
  lemma TakenBackIsClaimable(run: Run, i: nat, id: JobId)
    requires run.Valid() && i < |run.ops| && TakesBack(run.ops[i]) && id in run.states[i].jobs
    ensures id in run.states[i + 1].jobs
    ensures var r, q := run.states[i].jobs[id], run.states[i + 1].jobs[id];
            && (q != r <==> TakesJobBack(run.states[i], run.ops[i], id))
            && (q != r ==>
                  && SameJob(r, q) && q.status.Pending? && q.scheduledAt == r.scheduledAt
                  && q.retryCount == r.retryCount + (if run.ops[i].ReleaseDeregistered? then 1 else 0)
                  && (id in Candidates(run.states[i + 1], r.org, r.queue, run.states[i + 1].now) <==>
                        && (r.expiresAt.None? || r.expiresAt.value > run.states[i].now)
                        && r.dependenciesMet != Some(false)))
  {
    var db, op := run.states[i], run.ops[i];
    assert Follows(db, op, run.states[i + 1]);
    assert run.states[i + 1].jobs[id] == StepRow(db, op, id);
    TakeBackRow(db, op, id);
    if TakesJobBack(db, op, id) {
      RunInv(run, i);
      HeldIsUnlocked(db, id);
      ProcessingWasDue(run, i, id);
      assert !Locked(run.states[i + 1], id);
    }
  }

  // ---------------------------------------------------------------------------
  // Claims
  // ---------------------------------------------------------------------------

  /** The request an open claim was made for: the claim's columns are the request's, with the
      lease length kept within 5 and 3600 seconds. */
  ghost predicate MadeFor(c: Claim, op: Op) {
    && op.SelectClaim?
    && c.uuid == op.uuid && c.single == op.single && c.chosen == op.chosen
    && c.worker == op.worker && c.at == op.at
    && (5 <= op.secs <= 3600 ==> c.secs == op.secs)
    && (op.secs < 5 ==> c.secs == 5)
    && (op.secs > 3600 ==> c.secs == 3600)
  }

  lemma NewClaimRows(db: Db, op: Op)
    requires Enabled(db, op) && op.SelectClaim?
    ensures var after := Apply(db, op);
            && op.txn in after.claims && MadeFor(after.claims[op.txn], op)
            && forall id :: id in op.chosen ==> id in db.jobs && id in after.jobs && after.jobs[id] == db.jobs[id]
  {
    assert forall id :: id in op.chosen ==> id in Candidates(db, op.org, op.queue, op.at);
    assert forall id :: id in db.jobs ==> StepRow(db, op, id) == db.jobs[id];
  }

  lemma OpenClaimRows(db: Db, op: Op, txn: nat)
    requires RowsOk(db) && ClaimsOk(db) && Enabled(db, op) && txn in Apply(db, op).claims
    requires !(op.SelectClaim? && op.txn == txn)
    ensures var after := Apply(db, op);
            && txn in db.claims && after.claims[txn] == db.claims[txn]
            && forall id :: id in db.claims[txn].chosen ==>
                 id in db.jobs && id in after.jobs && after.jobs[id] == db.jobs[id]
  {
    forall id | id in db.claims[txn].chosen
      ensures id in db.jobs && StepRow(db, op, id) == db.jobs[id]
    {
      LockedUntouched(db, op, txn, id);
    }
  }

  /** Every open claim was selected earlier in the run, and its rows are still as they were
      then: whatever happens in between, a claim commits what it selected. */
  lemma {:induction false} SelectedEarlier(run: Run, n: nat, txn: nat) returns (i: nat)
    requires run.Valid() && n < |run.states| && txn in run.states[n].claims
    ensures i < n && MadeFor(run.states[n].claims[txn], run.ops[i])
    ensures forall id :: id in run.states[n].claims[txn].chosen ==>
              id in run.states[i].jobs && id in run.states[n].jobs
              && run.states[n].jobs[id] == run.states[i].jobs[id]
  {
    assert n > 0;
    var db, op := run.states[n - 1], run.ops[n - 1];
    assert Follows(db, op, run.states[n]);
    if op.SelectClaim? && op.txn == txn {
      NewClaimRows(db, op);
      i := n - 1;
    } else {
      RunInv(run, n - 1);
      OpenClaimRows(db, op, txn);
      i := SelectedEarlier(run, n - 1, txn);
    }
  }

  /** A job that the claim of `op` may take, read off its row. */
  ghost predicate Due(r: Row, org: string, queue: string, at: int) {
    && r.org == org
    && r.queue == queue
    && r.status in {Pending, Scheduled}
    && !(r.scheduledAt.Some? && r.scheduledAt.value > at)
    && !(r.expiresAt.Some? && r.expiresAt.value <= at)
    && r.dependenciesMet != Some(false)
  }

  /** A job is leased only for a request of its own organization and queue, only when it is
      due, not expired and not waiting for another job, and for the time that was asked. */
  lemma LeasedForItsRequest(run: Run, j: nat, id: JobId) returns (i: nat)
    requires run.Valid() && j < |run.ops| && Leases(run.states[j], run.ops[j], id)
    ensures i < j && run.ops[i].SelectClaim? && id in run.ops[i].chosen
    ensures id in run.states[j].jobs && id in run.states[j + 1].jobs
    ensures var op, q := run.ops[i], run.states[j + 1].jobs[id];
            && Due(run.states[j].jobs[id], op.org, op.queue, op.at)
            && q.status.Processing? && q.worker == Some(op.worker)
            && (5 <= op.secs <= 3600 ==> q.leaseExpiresAt == Some(op.at + op.secs * SECOND))
  {
    var txn := run.ops[j].txn;
    i := SelectedEarlier(run, j, txn);
    var db, op := run.states[i], run.ops[i];
    assert Follows(db, op, run.states[i + 1]);
    assert Follows(run.states[j], run.ops[j], run.states[j + 1]);
    assert id in Candidates(db, op.org, op.queue, op.at);
    assert run.states[j + 1].jobs[id] == StepRow(run.states[j], run.ops[j], id);
  }

  /** The job `a` goes before the job `b`, or they tie. */
  ghost predicate NotAfter(a: Row, b: Row) {
    a.priority > b.priority || (a.priority == b.priority && a.createdAt <= b.createdAt)
  }

  /** A claim takes jobs by priority, then by age: none that it leaves behind goes before one
      that it takes, it takes at most one hundred, and it leaves a job behind only when it
      has as many as it may take. */
  lemma ClaimOrder(run: Run, i: nat)
    requires run.Valid() && i < |run.ops| && run.ops[i].SelectClaim?
    ensures var db, op := run.states[i], run.ops[i];
            && (forall a :: a in op.chosen ==> a in db.jobs && !Locked(db, a) && Due(db.jobs[a], op.org, op.queue, op.at))
            && (forall x, y :: 0 <= x < y < |op.chosen| ==> NotAfter(db.jobs[op.chosen[x]], db.jobs[op.chosen[y]]))
            && |op.chosen| <= 100 && (op.single || op.limit <= 1 ==> |op.chosen| <= 1)
            && (1 <= op.limit ==> |op.chosen| <= op.limit)
  {
    var db, op := run.states[i], run.ops[i];
    assert Follows(db, op, run.states[i + 1]);
    assert forall a :: a in op.chosen ==> a in Candidates(db, op.org, op.queue, op.at);
  }

  lemma LeftBehind(run: Run, i: nat, a: JobId, b: JobId)
    requires run.Valid() && i < |run.ops| && run.ops[i].SelectClaim?
    requires b in run.states[i].jobs && !Locked(run.states[i], b) && b !in run.ops[i].chosen
    requires Due(run.states[i].jobs[b], run.ops[i].org, run.ops[i].queue, run.ops[i].at)
    ensures var db, op := run.states[i], run.ops[i];
            && |op.chosen| == (if op.single || op.limit < 1 then 1 else if op.limit > 100 then 100 else op.limit)
            && (a in op.chosen ==> a in db.jobs && NotAfter(db.jobs[a], db.jobs[b]))
  {
    var db, op := run.states[i], run.ops[i];
    assert Follows(db, op, run.states[i + 1]);
    var from := Candidates(db, op.org, op.queue, op.at);
    assert b in from;
    if a in op.chosen {
      var k :| 0 <= k < |op.chosen| && op.chosen[k] == a;
      assert a in from;
    }
    if |op.chosen| == |from| {
      AllTaken(op.chosen, from);
    }
  }

  /** Distinct members of a finite set, as many as it has, are all of it. */
  lemma AllTaken(chosen: seq<JobId>, from: set<JobId>)
    requires Distinct(chosen) && (forall x :: 0 <= x < |chosen| ==> chosen[x] in from)
    requires |chosen| == |from|
    ensures forall id :: id in from ==> id in chosen
    decreases |chosen|
  {
    if chosen == [] {
      assert from == {};
    } else {
      var last := chosen[|chosen| - 1];
      AllTaken(chosen[..|chosen| - 1], from - {last});
      assert chosen == chosen[..|chosen| - 1] + [last];
    }
  }

  // ---------------------------------------------------------------------------
  // Only the holder settles
  // ---------------------------------------------------------------------------

  lemma StepLease(db: Db, op: Op, id: JobId)
    requires Enabled(db, op) && id in db.jobs && StepRow(db, op, id).leaseId.Some?
    ensures || Leases(db, op, id)
            || (StepRow(db, op, id).leaseId == db.jobs[id].leaseId && StepRow(db, op, id).worker == db.jobs[id].worker)
  {
  }

  /** A row's token and worker come from one claim that leased the job. */
  lemma {:induction false} LeaseIsFromClaim(run: Run, n: nat, id: JobId) returns (i: nat)
    requires run.Valid() && n < |run.states| && id in run.states[n].jobs && run.states[n].jobs[id].leaseId.Some?
    ensures i < n && Leases(run.states[i], run.ops[i], id)
    ensures var c, r := run.states[i].claims[run.ops[i].txn], run.states[n].jobs[id];
            r.leaseId == Some(TokenFor(c, id)) && r.worker == Some(c.worker)
  {
    assert n > 0;
    var db, op := run.states[n - 1], run.ops[n - 1];
    assert Follows(db, op, run.states[n]);
    assert id in db.jobs;
    assert run.states[n].jobs[id] == StepRow(db, op, id);
    StepLease(db, op, id);
    if Leases(db, op, id) {
      i := n - 1;
    } else {
      i := LeaseIsFromClaim(run, n - 1, id);
    }
  }

  /** A complete, fail or renewal succeeds only for the worker to which a claim gave that very
      token on that very job, in the job's organization and with a key for its queue. */
  lemma OnlyTheHolder(run: Run, j: nat) returns (i: nat)
    requires run.Valid() && j < |run.ops| && Succeeds(run.states[j], run.ops[j])
    ensures var c := Presented(run.states[j], run.ops[j]).value;
            && i < j && c.job in run.states[j].jobs && Leases(run.states[i], run.ops[i], c.job)
            && run.states[i].claims[run.ops[i].txn].worker == c.worker
            && c.lease == Some(TokenFor(run.states[i].claims[run.ops[i].txn], c.job))
            && run.states[j].jobs[c.job].org == c.org
            && InKeyScope(run.states[j].jobs[c.job].queue, c.scope)
  {
    i := LeaseIsFromClaim(run, j, Presented(run.states[j], run.ops[j]).value.job);
  }

  // ---------------------------------------------------------------------------
  // Schedules
  // ---------------------------------------------------------------------------

  /** A failure with retries left puts the job off by min(2^r, 60) seconds and less than half
      a second more; the last one buries it with the error as its reason. */
  lemma FailureExact(run: Run, i: nat)
    requires run.Valid() && i < |run.ops| && run.ops[i].WriteFail? && Succeeds(run.states[i], run.ops[i])
    ensures var db, op, after := run.states[i], run.ops[i], run.states[i + 1];
            var id := db.calls[op.call].caller.job;
            && id in after.jobs && 0 <= db.jobs[id].retryCount
            && var r, q := db.jobs[id], after.jobs[id];
            && q.worker.None? && q.leaseId.None? && q.leaseExpiresAt.None?
            && (r.retryCount < r.maxRetries ==>
                  && q.status.Scheduled? && q.retryCount == r.retryCount + 1 && after.deadLetters == db.deadLetters
                  && q.scheduledAt.Some?
                  && 0 <= q.scheduledAt.value - (op.at + Min(Pow2(r.retryCount), 60) * SECOND) < 500)
            && (r.retryCount == r.maxRetries ==>
                  && q.status.DeadLetter? && q.retryCount == r.retryCount
                  && after.deadLetters
                     == db.deadLetters + [DeadLetterRow(id, r.org, r.queue, r.payload, op.error, r.retryCount)])
  {
    var db, op := run.states[i], run.ops[i];
    assert Follows(db, op, run.states[i + 1]);
    FailIsAtomic(run, i);
    RunInv(run, i);
    SnapshotCurrent(db, op.call);
    var id := db.calls[op.call].caller.job;
    assert RowOk(db.jobs[id]);
    BackoffIsCappedPower(db.jobs[id].retryCount);
  }

  /** A new job has the data it was given, no lease and no retries used. Unless it is for
      later, the very next claim on its queue can take it. */
  lemma EnqueuedIsClaimable(run: Run, i: nat)
    requires run.Valid() && i < |run.ops| && Inserts(run.states[i], run.ops[i])
    ensures var op, after := run.ops[i], run.states[i + 1];
            && op.id in after.jobs
            && var q := after.jobs[op.id];
            && q.org == op.job.org && q.queue == op.job.queue && q.payload == op.job.payload
            && q.priority == op.job.priority && q.maxRetries == op.job.maxRetries
            && q.scheduledAt == op.job.scheduledAt && q.idempotencyKey == op.job.idempotencyKey
            && q.createdAt == op.at && q.retryCount == 0 && q.worker.None? && q.leaseId.None?
            && (op.id in Candidates(after, op.job.org, op.job.queue, after.now)
                <==> op.job.scheduledAt.None? || op.job.scheduledAt.value <= after.now)
  {
    var db, op := run.states[i], run.ops[i];
    assert Follows(db, op, run.states[i + 1]);
    RunInv(run, i);
    NewIsUnlocked(db, op.id);
    assert !Locked(run.states[i + 1], op.id);
  }

  lemma NewIsUnlocked(db: Db, id: JobId)
    requires ClaimsOk(db) && id !in db.jobs
    ensures !Locked(db, id)
  {
    forall x | x in db.claims
      ensures id !in db.claims[x].chosen
    {
      assert ClaimOk(db, db.claims[x]);
      assert forall k :: 0 <= k < |db.claims[x].chosen| ==> Waiting(db, db.claims[x].chosen[k], db.claims[x].at);
    }
  }

  /** A job enqueued for a later time is not leased before that time. */
  lemma NeverLeasedBeforeSchedule(run: Run, i: nat, j: nat)
    requires run.Valid() && i < j < |run.ops| && Inserts(run.states[i], run.ops[i])
    requires run.ops[i].job.scheduledAt.Some? && Leases(run.states[j], run.ops[j], run.ops[i].id)
    ensures run.states[j].now >= run.ops[i].job.scheduledAt.value
  {
    var db, op := run.states[i], run.ops[i];
    assert Follows(db, op, run.states[i + 1]);
    RunInv(run, i);
    NewIsUnlocked(db, op.id);
    assert run.states[i + 1].claims == db.claims;
    assert !Locked(run.states[i + 1], op.id);
    assert run.states[i + 1].jobs[op.id] == NewRow(op.job, op.at);
    WaitsThrough(run, i + 1, j, op.id, op.job.scheduledAt.value);
    assert Locked(run.states[j], op.id);
  }

  // ---------------------------------------------------------------------------
  // Why a call missed
  // ---------------------------------------------------------------------------

  /** The caller's own job: the row names its worker, its organization and a queue of its. */
  ghost predicate Own(db: Db, c: Caller) {
    && c.job in db.jobs
    && db.jobs[c.job].worker == Some(c.worker)
    && db.jobs[c.job].org == c.org
    && InKeyScope(db.jobs[c.job].queue, c.scope)
  }

  /** After a miss, whatever happened before the follow-up read, the report is one of four, and
      each is exact: not the caller's job, its lease has run out, its lease is another one, or
      the job is completed. A dead letter has no worker, so it is never the caller's. */
  lemma MissExact(run: Run, i: nat, j: nat, c: Caller)
    requires run.Valid() && i <= j < |run.states| && !Holds(run.states[i], c)
    requires c.lease.Some? ==> Issued(run.states[i], c.lease.value)
    ensures var db, miss := run.states[j], ClassifyMiss(run.states[j], c);
            && (miss == NoRow <==> !Own(db, c))
            && (miss == AlreadyFinished(Completed) <==> Own(db, c) && db.jobs[c.job].status.Completed?)
            && (miss == LeaseExpired <==>
                  && Own(db, c) && db.jobs[c.job].status.Processing?
                  && db.jobs[c.job].leaseExpiresAt.Some? && db.jobs[c.job].leaseExpiresAt.value <= db.now)
            && (miss == LeaseMismatch <==>
                  && Own(db, c) && db.jobs[c.job].status.Processing? && db.jobs[c.job].leaseId != c.lease
                  && db.jobs[c.job].leaseExpiresAt.Some? && db.jobs[c.job].leaseExpiresAt.value > db.now)
            && miss in {NoRow, AlreadyFinished(Completed), LeaseExpired, LeaseMismatch}
  {
    MissIsNeverBenign(run, i, j, c);
    RunInv(run, j);
    if c.job in run.states[j].jobs {
      assert RowOk(run.states[j].jobs[c.job]);
    }
  }

  ghost predicate CompletedFor(db: Db, c: Caller) {
    Own(db, c) && db.jobs[c.job].status.Completed?
  }

  lemma CompletedForStays(db: Db, op: Op, c: Caller)
    requires ClaimsOk(db) && Enabled(db, op) && CompletedFor(db, c)
    ensures CompletedFor(Apply(db, op), c)
  {
    assert Apply(db, op).jobs[c.job] == StepRow(db, op, c.job);
  }

  lemma CompleteIsFor(db: Db, c: Caller)
    requires Holds(db, c)
    ensures CompletedFor(Apply(db, Complete(c)), c)
  {
    assert Apply(db, Complete(c)).jobs[c.job] == StepRow(db, Complete(c), c.job);
  }

  lemma {:induction false} CompletedForThrough(run: Run, i: nat, j: nat, c: Caller)
    requires run.Valid() && i <= j < |run.states| && CompletedFor(run.states[i], c)
    ensures CompletedFor(run.states[j], c)
    decreases j
  {
    if i < j {
      CompletedForThrough(run, i, j - 1, c);
      assert Follows(run.states[j - 1], run.ops[j - 1], run.states[j]);
      RunInv(run, j - 1);
      CompletedForStays(run.states[j - 1], run.ops[j - 1], c);
    }
  }

  /** A worker that repeats a complete which went through is told, ever after, that the job is
      already completed. */
  lemma RepeatedComplete(run: Run, i: nat, j: nat)
    requires run.Valid() && i < j < |run.states| && run.ops[i].Complete? && Succeeds(run.states[i], run.ops[i])
    ensures ClassifyMiss(run.states[j], run.ops[i].caller) == AlreadyFinished(Completed)
  {
    var c := run.ops[i].caller;
    assert Follows(run.states[i], run.ops[i], run.states[i + 1]);
    CompleteIsFor(run.states[i], c);
    CompletedForThrough(run, i + 1, j, c);
  }
}
