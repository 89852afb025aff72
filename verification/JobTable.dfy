/** The jobs table and the statements that change it.

    Each SQL statement is one atomic step. A claim is two: the rows are selected and locked,
    then updated when the transaction commits. Failing a job is two as well: the retry count
    is read, then a guarded update writes the decision. Times are milliseconds.
 */
module JobTable {
  import opened Wrappers
  import opened QueueScope
  import opened QueueScopeSql

  const SECOND := 1000
  const MIN_LEASE_SECS := 5
  const MAX_LEASE_SECS := 3600
  const MAX_BATCH := 100
  const MAX_PAYLOAD := 1048576
  const MAX_INT32 := 0x7FFF_FFFF
  const UUID_LENGTH := 36

  type JobId = string
  type Token = string

  /** A payload's text as the bytes that are stored and counted. */
  type Payload = seq<bv8>

  datatype Status = Pending | Scheduled | Processing | Completed | DeadLetter

  datatype Row = Row(
    org: string,
    queue: string,
    status: Status,
    payload: Payload,
    priority: int,
    maxRetries: int,
    retryCount: int,
    createdAt: int,
    scheduledAt: Option<int>,
    expiresAt: Option<int>,
    dependenciesMet: Option<bool>,
    idempotencyKey: Option<string>,
    worker: Option<string>,
    leaseId: Option<Token>,
    leaseExpiresAt: Option<int>,
    leaseDuration: Option<int>)

  datatype DeadLetterRow = DeadLetterRow(
    job: JobId, org: string, queue: string, payload: Payload, reason: string, totalRetries: int)

  /** A claim between its row locks and its commit. `single` claims one job and uses the
      UUID itself as token; a batch appends the job id. */
  datatype Claim = Claim(
    uuid: string, single: bool, chosen: seq<JobId>, worker: string, at: int, secs: int)

  /** Who asks to settle or renew: the job, the worker, its organization, the fencing token
      and the queues its API key may touch. */
  datatype Caller = Caller(
    job: JobId, worker: string, org: string, lease: Option<Token>, scope: Option<Scope>)

  /** A failing call between its read and its write. */
  datatype FailCall = FailCall(caller: Caller, retryCount: int, maxRetries: int, readAt: int)

  datatype Db = Db(
    jobs: map<JobId, Row>,
    deadLetters: seq<DeadLetterRow>,
    now: int,
    uuids: set<string>,              // every UUID generated so far
    claims: map<nat, Claim>,         // transactions holding row locks
    calls: map<nat, FailCall>)       // fail calls between read and write

  // ---------------------------------------------------------------------------
  // Guards
  // ---------------------------------------------------------------------------

  function Clamp(x: int, lo: int, hi: int): int {
    if x < lo then lo else if x > hi then hi else x
  }

  /** The predicate of every worker-facing UPDATE. */
  predicate Holds(db: Db, c: Caller) {
    && c.job in db.jobs
    && var r := db.jobs[c.job];
    && r.worker == Some(c.worker)
    && r.org == c.org
    && r.status.Processing?
    && r.leaseExpiresAt.Some? && r.leaseExpiresAt.value > db.now
    && c.lease.Some? && r.leaseId == c.lease
    && InKeyScope(r.queue, c.scope)
  }

  /** Rows a claim may take at time `at`. */
  predicate Eligible(r: Row, org: string, queue: string, at: int) {
    && r.org == org && r.queue == queue
    && (r.status.Pending? || r.status.Scheduled?)
    && (r.scheduledAt.None? || r.scheduledAt.value <= at)
    && (r.expiresAt.None? || r.expiresAt.value > at)
    && (r.dependenciesMet.None? || r.dependenciesMet.value)
  }

  predicate Locked(db: Db, id: JobId) {
    exists x :: x in db.claims && id in db.claims[x].chosen
  }

  /** Higher priority first, then older. */
  predicate Better(a: Row, b: Row) {
    a.priority > b.priority || (a.priority == b.priority && a.createdAt < b.createdAt)
  }

  function Candidates(db: Db, org: string, queue: string, at: int): set<JobId> {
    set id | id in db.jobs && Eligible(db.jobs[id], org, queue, at) && !Locked(db, id)
  }

  predicate Distinct(ids: seq<JobId>) {
    forall i, j :: 0 <= i < j < |ids| ==> ids[i] != ids[j]
  }

  /** `ORDER BY priority DESC, created_at ASC LIMIT limit FOR UPDATE SKIP LOCKED`: the best
      candidates, in order, as many as fit, none better left behind. */
  predicate IsBestBatch(db: Db, org: string, queue: string, at: int, limit: nat, chosen: seq<JobId>) {
    var from := Candidates(db, org, queue, at);
    && Distinct(chosen)
    && (forall i :: 0 <= i < |chosen| ==> chosen[i] in from)
    && |chosen| == (if |from| < limit then |from| else limit)
    && (forall i, j :: 0 <= i < j < |chosen| ==>
          chosen[i] in db.jobs && chosen[j] in db.jobs && !Better(db.jobs[chosen[j]], db.jobs[chosen[i]]))
    && (forall id :: id in from && id !in chosen ==>
          forall i :: 0 <= i < |chosen| ==>
            chosen[i] in db.jobs && id in db.jobs && !Better(db.jobs[id], db.jobs[chosen[i]]))
  }

  /** The fencing token a claim gives to a job. */
  function TokenFor(c: Claim, id: JobId): Token {
    if c.single then c.uuid else c.uuid + "-" + id
  }

  function Pow2(n: nat): nat {
    if n == 0 then 1 else 2 * Pow2(n - 1)
  }

  function Min(a: int, b: int): int {
    if a < b then a else b
  }

  /** Seconds before a retry; the exponent is clamped before the power is taken. */
  function BackoffSecs(retryCount: int): int {
    Min(Pow2(Clamp(retryCount, 0, 6)), 60)
  }

  // ---------------------------------------------------------------------------
  // Steps
  // ---------------------------------------------------------------------------

  datatype NewJob = NewJob(
    org: string, queue: string, payload: Payload, priority: int, maxRetries: int,
    scheduledAt: Option<int>, idempotencyKey: Option<string>)

  datatype Op =
    | Enqueue(id: JobId, job: NewJob, at: int)
    | SelectClaim(txn: nat, uuid: string, single: bool, chosen: seq<JobId>, worker: string, at: int, secs: int,
                  org: string, queue: string, limit: int)
    | CommitClaim(txn: nat)
    | AbortClaim(txn: nat)
    | Complete(caller: Caller)
    | ReadFail(call: nat, caller: Caller)
    | WriteFail(call: nat, at: int, jitter: int, error: string)
    | Renew(caller: Caller, requested: Option<int>, fallback: int)
    | Recover
    | ReleaseDeregistered(worker: string, org: string)
    | ReleaseLocal(workers: set<(string, string)>)
    | Tick(now: int)
    | External(id: JobId, dependenciesMet: Option<bool>, expiresAt: Option<int>)

  predicate KeyTaken(db: Db, org: string, key: Option<string>) {
    key.Some? && exists id :: id in db.jobs && db.jobs[id].org == org && db.jobs[id].idempotencyKey == key
  }

  /** What the environment guarantees of a step: fresh UUIDs, one clock that never goes back,
      a sampled application time that is not in the future, PostgreSQL's row selection, and
      row locks that other writers wait for. */
  predicate Enabled(db: Db, op: Op) {
    match op
    case Enqueue(id, job, at) =>
      id !in db.jobs && id !in db.uuids && |id| == UUID_LENGTH && at <= db.now && job.maxRetries >= 0
    case SelectClaim(txn, uuid, single, chosen, _, at, _, org, queue, limit) =>
      && txn !in db.claims && uuid !in db.uuids && |uuid| == UUID_LENGTH && at <= db.now
      && IsBestBatch(db, org, queue, at, if single then 1 else Clamp(limit, 1, MAX_BATCH), chosen)
    case CommitClaim(txn) => txn in db.claims
    case AbortClaim(txn) => txn in db.claims
    case ReadFail(call, caller) => call !in db.calls
    case WriteFail(call, at, jitter, _) =>
      call in db.calls && db.calls[call].readAt <= at <= db.now && 0 <= jitter < 500
    case Tick(now) => db.now <= now
    case External(id, _, _) => !Locked(db, id)
    case _ => true
  }

  predicate Expired(r: Row, now: int) {
    r.leaseExpiresAt.Some? && r.leaseExpiresAt.value <= now
  }

  /** A row without its lease. */
  function Unleased(r: Row): Row {
    r.(worker := None, leaseId := None, leaseExpiresAt := None)
  }

  function Leased(r: Row, c: Claim, id: JobId): Row {
    r.(status := Processing,
       worker := Some(c.worker),
       leaseId := Some(TokenFor(c, id)),
       leaseExpiresAt := Some(c.at + c.secs * SECOND),
       leaseDuration := Some(c.secs))
  }

  /** The outcome of a failure, decided on the retry counts `retryCount` and `maxRetries`. */
  function Failed(r: Row, retryCount: int, maxRetries: int, at: int, jitter: int): Row {
    if retryCount < maxRetries then
      Unleased(r).(status := Scheduled, retryCount := retryCount + 1,
                   scheduledAt := Some(at + BackoffSecs(retryCount) * SECOND + jitter))
    else
      Unleased(r).(status := DeadLetter)
  }

  function Renewed(r: Row, now: int, requested: Option<int>, fallback: int): Row {
    var length := if requested.Some? then Some(Clamp(requested.value, 1, MAX_INT32)) else r.leaseDuration;
    var secs := if length.Some? then length.value else Clamp(fallback, 1, MAX_INT32);
    r.(leaseExpiresAt := Some(now + secs * SECOND), leaseDuration := length)
  }

  predicate DeregisterReleases(r: Row, now: int, worker: string, org: string) {
    && r.worker == Some(worker) && r.org == org && r.status.Processing?
    && r.retryCount < r.maxRetries
    && (r.leaseExpiresAt.None? || r.leaseExpiresAt.value <= now)
  }

  predicate ShutdownReleases(r: Row, workers: set<(string, string)>) {
    r.status.Processing? && r.worker.Some? && (r.worker.value, r.org) in workers
  }

  /** What a step makes of the row `id`. */
  function StepRow(db: Db, op: Op, id: JobId): Row
    requires id in db.jobs && Enabled(db, op)
  {
    var r := db.jobs[id];
    match op
    case CommitClaim(txn) => if id in db.claims[txn].chosen then Leased(r, db.claims[txn], id) else r
    case Complete(c) => if c.job == id && Holds(db, c) then r.(status := Completed) else r
    case WriteFail(call, at, jitter, _) =>
      var f := db.calls[call];
      if f.caller.job == id && Holds(db, f.caller) then Failed(r, f.retryCount, f.maxRetries, at, jitter) else r
    case Renew(c, requested, fallback) =>
      if c.job == id && Holds(db, c) then Renewed(r, db.now, requested, fallback) else r
    case Recover =>
      if r.status.Processing? && Expired(r, db.now) then Unleased(r).(status := Pending) else r
    case ReleaseDeregistered(worker, org) =>
      if DeregisterReleases(r, db.now, worker, org)
      then Unleased(r).(status := Pending, retryCount := r.retryCount + 1) else r
    case ReleaseLocal(workers) =>
      if ShutdownReleases(r, workers) then Unleased(r).(status := Pending) else r
    case External(job, met, expiresAt) =>
      if job == id then r.(dependenciesMet := met, expiresAt := expiresAt) else r
    case _ => r
  }

  function NewRow(job: NewJob, at: int): Row {
    var status := if job.scheduledAt.Some? && job.scheduledAt.value > at then Scheduled else Pending;
    Row(job.org, job.queue, status, job.payload, job.priority, job.maxRetries, 0, at,
        job.scheduledAt, None, Some(true), job.idempotencyKey, None, None, None, None)
  }

  predicate Inserts(db: Db, op: Op) {
    op.Enqueue? && |op.job.payload| <= MAX_PAYLOAD && !KeyTaken(db, op.job.org, op.job.idempotencyKey)
  }

  /** Whether a WriteFail step moves its job to the dead-letter queue. */
  predicate Buries(db: Db, op: Op) {
    op.WriteFail? && op.call in db.calls
    && var f := db.calls[op.call]; Holds(db, f.caller) && f.retryCount >= f.maxRetries
  }

  function Jobs(db: Db, op: Op): map<JobId, Row>
    requires Enabled(db, op)
  {
    var kept := map id | id in db.jobs :: StepRow(db, op, id);
    if Inserts(db, op) then kept[op.id := NewRow(op.job, op.at)] else kept
  }

  function DeadLetters(db: Db, op: Op): seq<DeadLetterRow> {
    if Buries(db, op) then
      var f := db.calls[op.call];
      var r := db.jobs[f.caller.job];
      db.deadLetters + [DeadLetterRow(f.caller.job, r.org, r.queue, r.payload, op.error, f.retryCount)]
    else db.deadLetters
  }

  function Claims(db: Db, op: Op): map<nat, Claim> {
    match op
    case SelectClaim(txn, uuid, single, chosen, worker, at, secs, _, _, _) =>
      db.claims[txn := Claim(uuid, single, chosen, worker, at, Clamp(secs, MIN_LEASE_SECS, MAX_LEASE_SECS))]
    case CommitClaim(txn) => db.claims - {txn}
    case AbortClaim(txn) => db.claims - {txn}
    case _ => db.claims
  }

  function Calls(db: Db, op: Op): map<nat, FailCall> {
    match op
    case ReadFail(call, c) =>
      if Holds(db, c)
      then db.calls[call := FailCall(c, db.jobs[c.job].retryCount, db.jobs[c.job].maxRetries, db.now)]
      else db.calls
    case WriteFail(call, _, _, _) => db.calls - {call}
    case _ => db.calls
  }

  function Uuids(db: Db, op: Op): set<string> {
    match op
    case Enqueue(id, _, _) => db.uuids + {id}
    case SelectClaim(_, uuid, _, _, _, _, _, _, _, _) => db.uuids + {uuid}
    case _ => db.uuids
  }

  /** The table after a step. */
  function Apply(db: Db, op: Op): Db
    requires Enabled(db, op)
  {
    Db(Jobs(db, op), DeadLetters(db, op), if op.Tick? then op.now else db.now,
       Uuids(db, op), Claims(db, op), Calls(db, op))
  }

  // ---------------------------------------------------------------------------
  // Why an update missed
  // ---------------------------------------------------------------------------

  datatype Miss =
    | LeaseExpired
    | LeaseMismatch
    | BenignRace            // reported as "not owned"
    | Requeued              // reported as "lease expired"
    | AlreadyFinished(status: Status)
    | NoRow                 // reported as "not owned"

  function ClassifyMiss(db: Db, c: Caller): Miss {
    if c.job !in db.jobs then NoRow
    else
      var r := db.jobs[c.job];
      if r.org != c.org || r.worker != Some(c.worker) || !InKeyScope(r.queue, c.scope) then NoRow
      else if r.status.Processing? then
        if r.leaseExpiresAt.None? || r.leaseExpiresAt.value <= db.now then LeaseExpired
        else if r.leaseId != c.lease then LeaseMismatch
        else BenignRace
      else if r.status.Pending? || r.status.Scheduled? then Requeued
      else AlreadyFinished(r.status)
  }
}
