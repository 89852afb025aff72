/** What every step of the lease protocol keeps, and what follows over whole runs. */
module LeaseLaws {
  import opened Wrappers
  import opened JobTable

  // ---------------------------------------------------------------------------
  // The invariant
  // ---------------------------------------------------------------------------

  /** Leases exist exactly where they may, and retries stay within their limit. */
  ghost predicate RowOk(r: Row) {
    && 0 <= r.retryCount <= r.maxRetries
    && (r.status.Pending? || r.status.Scheduled? || r.status.DeadLetter? ==>
          r.worker.None? && r.leaseId.None? && r.leaseExpiresAt.None?)
    && (r.status.Processing? ==>
          r.worker.Some? && r.leaseId.Some? && r.leaseExpiresAt.Some? && r.leaseDuration.Some?)
    && (r.status.DeadLetter? ==> r.retryCount == r.maxRetries)
    && (r.leaseDuration.Some? ==> r.leaseDuration.value >= 1)
  }

  ghost predicate RowsOk(db: Db) {
    forall id :: id in db.jobs ==> RowOk(db.jobs[id])
  }

  /** The UUID a token was made from. */
  ghost function Origin(t: Token): string {
    if |t| < UUID_LENGTH then t else t[..UUID_LENGTH]
  }

  /** A token handed out by a finished claim. */
  ghost predicate Issued(db: Db, t: Token) {
    Origin(t) in db.uuids && forall x :: x in db.claims ==> db.claims[x].uuid != Origin(t)
  }

  ghost predicate TokensOk(db: Db) {
    forall id :: id in db.jobs && db.jobs[id].leaseId.Some? ==> Issued(db, db.jobs[id].leaseId.value)
  }

  /** No two jobs carry the same token. */
  ghost predicate TokensUnique(db: Db) {
    forall a, b :: (a in db.jobs && b in db.jobs && db.jobs[a].leaseId.Some?
                    && db.jobs[a].leaseId == db.jobs[b].leaseId) ==> a == b
  }

  ghost predicate Waiting(db: Db, id: JobId, at: int) {
    && id in db.jobs
    && (db.jobs[id].status.Pending? || db.jobs[id].status.Scheduled?)
    && (db.jobs[id].scheduledAt.None? || db.jobs[id].scheduledAt.value <= at)
  }

  ghost predicate ClaimOk(db: Db, c: Claim) {
    && |c.uuid| == UUID_LENGTH && c.uuid in db.uuids && c.at <= db.now && MIN_LEASE_SECS <= c.secs <= MAX_LEASE_SECS
    && Distinct(c.chosen) && (c.single ==> |c.chosen| <= 1)
    && (forall i :: 0 <= i < |c.chosen| ==> Waiting(db, c.chosen[i], c.at))
  }

  /** Rows locked by a claim wait for it; concurrent claims hold different rows. */
  ghost predicate ClaimsOk(db: Db) {
    && (forall x :: x in db.claims ==> ClaimOk(db, db.claims[x]))
    && (forall x, y :: x in db.claims && y in db.claims && x != y ==>
          db.claims[x].uuid != db.claims[y].uuid && Disjoint(db.claims[x].chosen, db.claims[y].chosen))
  }

  ghost predicate Disjoint(a: seq<JobId>, b: seq<JobId>) {
    forall id :: id in a ==> id !in b
  }

  /** The lease named by `t` is in force on job `id`. */
  ghost predicate Live(db: Db, id: JobId, t: Token) {
    && id in db.jobs
    && db.jobs[id].status.Processing?
    && db.jobs[id].leaseId == Some(t)
    && db.jobs[id].leaseExpiresAt.Some? && db.jobs[id].leaseExpiresAt.value > db.now
  }

  /** As long as the lease it saw is in force, a fail call's snapshot is current. */
  ghost predicate CallOk(db: Db, f: FailCall) {
    && f.readAt <= db.now && f.caller.lease.Some? && Issued(db, f.caller.lease.value)
    && (Live(db, f.caller.job, f.caller.lease.value) ==>
          && db.jobs[f.caller.job].retryCount == f.retryCount
          && db.jobs[f.caller.job].maxRetries == f.maxRetries)
  }

  ghost predicate CallsOk(db: Db) {
    forall x :: x in db.calls ==> CallOk(db, db.calls[x])
  }

  /** An idempotency key names one job of its organization. */
  ghost predicate KeysOk(db: Db) {
    forall a, b :: (a in db.jobs && b in db.jobs && db.jobs[a].idempotencyKey.Some?
                    && db.jobs[a].org == db.jobs[b].org
                    && db.jobs[a].idempotencyKey == db.jobs[b].idempotencyKey) ==> a == b
  }

  ghost function Burials(ds: seq<DeadLetterRow>, id: JobId): nat {
    if ds == [] then 0
    else Burials(ds[..|ds| - 1], id) + if ds[|ds| - 1].job == id then 1 else 0
  }

  /** A dead-lettered job has exactly one dead-letter row, any other job none; the row keeps
      the job's own data. */
  ghost predicate DeadLettersOk(db: Db) {
    && (forall id :: id in db.jobs ==>
          Burials(db.deadLetters, id) == if db.jobs[id].status.DeadLetter? then 1 else 0)
    && (forall i :: 0 <= i < |db.deadLetters| ==> Faithful(db, db.deadLetters[i]))
  }

  ghost predicate Faithful(db: Db, d: DeadLetterRow) {
    && d.job in db.jobs
    && d.org == db.jobs[d.job].org && d.queue == db.jobs[d.job].queue && d.payload == db.jobs[d.job].payload
    && d.totalRetries == db.jobs[d.job].maxRetries
  }

  /** Job ids are UUIDs that have been generated. */
  ghost predicate IdsOk(db: Db) {
    forall id :: id in db.jobs ==> id in db.uuids
  }

  ghost predicate Inv(db: Db) {
    && RowsOk(db) && TokensOk(db) && TokensUnique(db) && ClaimsOk(db) && CallsOk(db)
    && KeysOk(db) && DeadLettersOk(db) && IdsOk(db)
  }

  ghost predicate Init(db: Db) {
    db.jobs == map[] && db.deadLetters == [] && db.uuids == {} && db.claims == map[] && db.calls == map[]
  }

  lemma InitInv(db: Db)
    requires Init(db)
    ensures Inv(db)
  {
  }

  // ---------------------------------------------------------------------------
  // Tokens
  // ---------------------------------------------------------------------------

  lemma TokenOrigin(c: Claim, id: JobId)
    requires |c.uuid| == UUID_LENGTH
    ensures Origin(TokenFor(c, id)) == c.uuid
  {
    assert (c.uuid + "-" + id)[..UUID_LENGTH] == c.uuid;
  }

  /** Different jobs of one claim get different tokens. */
  lemma TokensDiffer(c: Claim, a: JobId, b: JobId)
    requires |c.uuid| == UUID_LENGTH && !c.single && a != b
    ensures TokenFor(c, a) != TokenFor(c, b)
  {
    assert (c.uuid + "-" + a)[UUID_LENGTH + 1..] == a;
    assert (c.uuid + "-" + b)[UUID_LENGTH + 1..] == b;
  }

  lemma OnlyOneChosen(c: Claim, a: JobId, b: JobId)
    requires c.single ==> |c.chosen| <= 1
    requires a in c.chosen && b in c.chosen && c.single
    ensures a == b
  {
  }

  /** Tokens stay issued. */
  lemma IssuedStays(db: Db, op: Op, t: Token)
    requires Enabled(db, op) && Issued(db, t)
    ensures Issued(Apply(db, op), t)
  {
  }

  // ---------------------------------------------------------------------------
  // The heart of fencing
  // ---------------------------------------------------------------------------

  /** No step brings an issued token's lease back: if it is in force after the step, it was
      in force before, on a row that still has the same owner, queue and retry counts. */
  lemma LiveBackward(db: Db, op: Op, id: JobId, t: Token)
    requires ClaimsOk(db) && Enabled(db, op) && Issued(db, t) && Live(Apply(db, op), id, t)
    ensures Live(db, id, t)
    ensures var r, q := db.jobs[id], Apply(db, op).jobs[id];
            && q.worker == r.worker && q.org == r.org && q.queue == r.queue
            && q.retryCount == r.retryCount && q.maxRetries == r.maxRetries
  {
    assert id in db.jobs;
    assert Apply(db, op).jobs[id] == StepRow(db, op, id);
    if op.CommitClaim? && id in db.claims[op.txn].chosen {
      TokenOrigin(db.claims[op.txn], id);
    }
  }

  /** So a caller that misses once, with an issued token, misses ever after. */
  lemma HoldsBackward(db: Db, op: Op, c: Caller)
    requires ClaimsOk(db) && Enabled(db, op) && Holds(Apply(db, op), c)
    requires c.lease.Some? && Issued(db, c.lease.value)
    ensures Holds(db, c)
  {
    LiveBackward(db, op, c.job, c.lease.value);
  }

  // ---------------------------------------------------------------------------
  // Every step keeps the invariant
  // ---------------------------------------------------------------------------

  lemma HoldsLive(db: Db, c: Caller)
    requires Holds(db, c)
    ensures c.lease.Some? && Live(db, c.job, c.lease.value)
  {
  }

  lemma SnapshotCurrent(db: Db, call: nat)
    requires CallsOk(db) && call in db.calls && Holds(db, db.calls[call].caller)
    ensures var f := db.calls[call];
            db.jobs[f.caller.job].retryCount == f.retryCount && db.jobs[f.caller.job].maxRetries == f.maxRetries
  {
    HoldsLive(db, db.calls[call].caller);
    assert CallOk(db, db.calls[call]);
  }

  lemma StepRowOk(db: Db, op: Op, id: JobId)
    requires RowsOk(db) && ClaimsOk(db) && CallsOk(db) && Enabled(db, op) && id in db.jobs
    ensures RowOk(StepRow(db, op, id))
  {
    assert RowOk(db.jobs[id]);
    match op
    case CommitClaim(txn) =>
      if id in db.claims[txn].chosen {
        var c := db.claims[txn];
        assert ClaimOk(db, c);
        var i :| 0 <= i < |c.chosen| && c.chosen[i] == id;
        assert Waiting(db, c.chosen[i], c.at);
      }
    case WriteFail(call, _, _, _) =>
      if Holds(db, db.calls[call].caller) {
        SnapshotCurrent(db, call);
      }
    case _ =>
  }

  lemma KeepsRows(db: Db, op: Op)
    requires RowsOk(db) && ClaimsOk(db) && CallsOk(db) && Enabled(db, op)
    ensures RowsOk(Apply(db, op))
  {
    forall id | id in db.jobs
      ensures RowOk(StepRow(db, op, id))
    {
      StepRowOk(db, op, id);
    }
  }

  /** A row's token after a step is its token before, unless a claim just gave it one. */
  lemma TokenAfter(db: Db, op: Op, id: JobId)
    requires ClaimsOk(db) && Enabled(db, op) && id in db.jobs && StepRow(db, op, id).leaseId.Some?
    ensures StepRow(db, op, id).leaseId == db.jobs[id].leaseId
            || (op.CommitClaim? && id in db.claims[op.txn].chosen
                && StepRow(db, op, id).leaseId == Some(TokenFor(db.claims[op.txn], id)))
  {
  }

  lemma KeepsTokens(db: Db, op: Op)
    requires TokensOk(db) && ClaimsOk(db) && Enabled(db, op)
    ensures TokensOk(Apply(db, op))
  {
    forall id | id in db.jobs && StepRow(db, op, id).leaseId.Some?
      ensures Issued(Apply(db, op), StepRow(db, op, id).leaseId.value)
    {
      TokenAfter(db, op, id);
      if StepRow(db, op, id).leaseId == db.jobs[id].leaseId {
        IssuedStays(db, op, db.jobs[id].leaseId.value);
      } else {
        TokenOrigin(db.claims[op.txn], id);
        assert ClaimOk(db, db.claims[op.txn]);
      }
    }
  }

  lemma KeepsTokensUnique(db: Db, op: Op)
    requires TokensOk(db) && TokensUnique(db) && ClaimsOk(db) && Enabled(db, op)
    ensures TokensUnique(Apply(db, op))
  {
    forall a, b | a in db.jobs && b in db.jobs && StepRow(db, op, a).leaseId.Some?
                  && StepRow(db, op, a).leaseId == StepRow(db, op, b).leaseId
      ensures a == b
    {
      TokenAfter(db, op, a);
      TokenAfter(db, op, b);
      if op.CommitClaim? {
        var c := db.claims[op.txn];
        assert ClaimOk(db, c);
        TokenOrigin(c, a);
        TokenOrigin(c, b);
        if a in c.chosen && b in c.chosen && a != b {
          if c.single {
            OnlyOneChosen(c, a, b);
          } else {
            TokensDiffer(c, a, b);
          }
        }
      }
    }
  }

  /** Rows locked by a claim are left alone by every other step. */
  lemma LockedUntouched(db: Db, op: Op, x: nat, id: JobId)
    requires RowsOk(db) && ClaimsOk(db) && Enabled(db, op) && x in db.claims && id in db.claims[x].chosen
    requires !(op.CommitClaim? && op.txn == x)
    ensures id in db.jobs && StepRow(db, op, id) == db.jobs[id]
  {
    var c := db.claims[x];
    assert ClaimOk(db, c);
    var i :| 0 <= i < |c.chosen| && c.chosen[i] == id;
    assert Waiting(db, c.chosen[i], c.at);
    assert RowOk(db.jobs[id]);
    if op.External? {
      assert Locked(db, id);
    } else if op.CommitClaim? {
      assert Disjoint(c.chosen, db.claims[op.txn].chosen);
    }
  }

  lemma NewClaimOk(db: Db, op: Op)
    requires ClaimsOk(db) && Enabled(db, op) && op.SelectClaim?
    ensures ClaimOk(Apply(db, op), Apply(db, op).claims[op.txn])
    ensures forall x :: x in db.claims ==>
                          Disjoint(db.claims[x].chosen, op.chosen) && Disjoint(op.chosen, db.claims[x].chosen)
  {
    forall i | 0 <= i < |op.chosen|
      ensures Waiting(Apply(db, op), op.chosen[i], op.at) && !Locked(db, op.chosen[i])
    {
      assert op.chosen[i] in Candidates(db, op.org, op.queue, op.at);
    }
  }

  lemma KeepsClaim(db: Db, op: Op, x: nat)
    requires RowsOk(db) && ClaimsOk(db) && Enabled(db, op) && x in db.claims && x in Apply(db, op).claims
    requires !(op.SelectClaim? && op.txn == x)
    ensures ClaimOk(Apply(db, op), db.claims[x])
  {
    var c := db.claims[x];
    assert ClaimOk(db, c);
    forall i | 0 <= i < |c.chosen|
      ensures Waiting(Apply(db, op), c.chosen[i], c.at)
    {
      assert Waiting(db, c.chosen[i], c.at);
      LockedUntouched(db, op, x, c.chosen[i]);
      assert c.chosen[i] in Apply(db, op).jobs;
    }
  }

  lemma KeepsClaims(db: Db, op: Op)
    requires RowsOk(db) && ClaimsOk(db) && Enabled(db, op)
    ensures ClaimsOk(Apply(db, op))
  {
    var after := Apply(db, op);
    if op.SelectClaim? {
      NewClaimOk(db, op);
    }
    forall x | x in after.claims
      ensures ClaimOk(after, after.claims[x])
    {
      if !(op.SelectClaim? && op.txn == x) {
        KeepsClaim(db, op, x);
      }
    }
    forall x, y | x in after.claims && y in after.claims && x != y
      ensures after.claims[x].uuid != after.claims[y].uuid
      ensures Disjoint(after.claims[x].chosen, after.claims[y].chosen)
    {
      if x in db.claims {
        assert ClaimOk(db, db.claims[x]);
      }
      if y in db.claims {
        assert ClaimOk(db, db.claims[y]);
      }
    }
  }

  lemma KeepsCalls(db: Db, op: Op)
    requires TokensOk(db) && ClaimsOk(db) && CallsOk(db) && Enabled(db, op)
    ensures CallsOk(Apply(db, op))
  {
    var after := Apply(db, op);
    forall x | x in after.calls
      ensures CallOk(after, after.calls[x])
    {
      var f := after.calls[x];
      if x in db.calls && f == db.calls[x] {
        assert CallOk(db, f);
      } else {
        HoldsLive(db, f.caller);
        assert Issued(db, f.caller.lease.value);
      }
      var t := f.caller.lease.value;
      IssuedStays(db, op, t);
      if Live(after, f.caller.job, t) {
        LiveBackward(db, op, f.caller.job, t);
      }
    }
  }

  lemma KeepsKeys(db: Db, op: Op)
    requires KeysOk(db) && Enabled(db, op)
    ensures KeysOk(Apply(db, op))
  {
    forall id | id in db.jobs
      ensures StepRow(db, op, id).org == db.jobs[id].org
      ensures StepRow(db, op, id).idempotencyKey == db.jobs[id].idempotencyKey
    {
    }
  }

  lemma KeepsIds(db: Db, op: Op)
    requires IdsOk(db) && Enabled(db, op)
    ensures IdsOk(Apply(db, op))
  {
  }

  lemma {:induction false} NoBurial(ds: seq<DeadLetterRow>, id: JobId)
    requires forall i :: 0 <= i < |ds| ==> ds[i].job != id
    ensures Burials(ds, id) == 0
  {
    if ds != [] {
      NoBurial(ds[..|ds| - 1], id);
    }
  }

  lemma OneMoreBurial(ds: seq<DeadLetterRow>, d: DeadLetterRow, id: JobId)
    ensures Burials(ds + [d], id) == Burials(ds, id) + if d.job == id then 1 else 0
  {
    assert (ds + [d])[..|ds|] == ds;
  }

  /** A step buries a job exactly when it turns it into a dead letter. */
  lemma BuriedExactly(db: Db, op: Op, id: JobId)
    requires RowsOk(db) && ClaimsOk(db) && Enabled(db, op) && id in db.jobs
    ensures Buries(db, op) && db.calls[op.call].caller.job == id
            <==> StepRow(db, op, id).status.DeadLetter? && !db.jobs[id].status.DeadLetter?
    ensures db.jobs[id].status.DeadLetter? ==> StepRow(db, op, id).status.DeadLetter?
  {
    assert RowOk(db.jobs[id]);
    if op.CommitClaim? && id in db.claims[op.txn].chosen {
      var c := db.claims[op.txn];
      assert ClaimOk(db, c);
      var i :| 0 <= i < |c.chosen| && c.chosen[i] == id;
      assert Waiting(db, c.chosen[i], c.at);
    }
  }

  lemma SameData(db: Db, op: Op, id: JobId)
    requires Enabled(db, op) && id in db.jobs
    ensures var r, q := db.jobs[id], StepRow(db, op, id);
            q.org == r.org && q.queue == r.queue && q.payload == r.payload && q.maxRetries == r.maxRetries
  {
  }

  lemma KeepsBurials(db: Db, op: Op, id: JobId)
    requires RowsOk(db) && ClaimsOk(db) && DeadLettersOk(db) && Enabled(db, op) && id in Apply(db, op).jobs
    ensures var after := Apply(db, op);
            Burials(after.deadLetters, id) == if after.jobs[id].status.DeadLetter? then 1 else 0
  {
    var after := Apply(db, op);
    if id in db.jobs {
      assert after.jobs[id] == StepRow(db, op, id);
      BuriedExactly(db, op, id);
      if Buries(db, op) {
        OneMoreBurial(db.deadLetters, after.deadLetters[|db.deadLetters|], id);
      }
    } else {
      forall i | 0 <= i < |db.deadLetters|
        ensures db.deadLetters[i].job != id
      {
        assert Faithful(db, db.deadLetters[i]);
      }
      NoBurial(db.deadLetters, id);
    }
  }

  lemma KeepsFaithful(db: Db, op: Op, i: nat)
    requires RowsOk(db) && CallsOk(db) && DeadLettersOk(db) && Enabled(db, op) && i < |Apply(db, op).deadLetters|
    ensures Faithful(Apply(db, op), Apply(db, op).deadLetters[i])
  {
    var after := Apply(db, op);
    var d := after.deadLetters[i];
    if i < |db.deadLetters| {
      assert d == db.deadLetters[i];
      assert Faithful(db, d);
    } else {
      SnapshotCurrent(db, op.call);
      assert RowOk(db.jobs[d.job]);
    }
    SameData(db, op, d.job);
    assert after.jobs[d.job] == StepRow(db, op, d.job);
  }

  lemma KeepsDeadLetters(db: Db, op: Op)
    requires RowsOk(db) && ClaimsOk(db) && CallsOk(db) && DeadLettersOk(db) && Enabled(db, op)
    ensures DeadLettersOk(Apply(db, op))
  {
    var after := Apply(db, op);
    forall id | id in after.jobs
      ensures Burials(after.deadLetters, id) == if after.jobs[id].status.DeadLetter? then 1 else 0
    {
      KeepsBurials(db, op, id);
    }
    forall i | 0 <= i < |after.deadLetters|
      ensures Faithful(after, after.deadLetters[i])
    {
      KeepsFaithful(db, op, i);
    }
  }

  lemma StepKeepsInv(db: Db, op: Op)
    requires Inv(db) && Enabled(db, op)
    ensures Inv(Apply(db, op))
  {
    KeepsRows(db, op);
    KeepsTokens(db, op);
    KeepsTokensUnique(db, op);
    KeepsClaims(db, op);
    KeepsCalls(db, op);
    KeepsKeys(db, op);
    KeepsDeadLetters(db, op);
    KeepsIds(db, op);
  }
}
