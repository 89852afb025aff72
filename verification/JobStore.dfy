/** The queue manager's statements as they update the tables in place. */
module JobStores {
  import opened Wrappers
  import opened JobTable
  import opened LeaseLaws

  /** A row of `from` that no other row of `from` comes before. */
  method First(jobs: map<JobId, Row>, from: set<JobId>) returns (best: JobId)
    requires from != {} && from <= jobs.Keys
    ensures best in from && forall id :: id in from ==> !Better(jobs[id], jobs[best])
  {
    best :| best in from;
    var rest := from - {best};
    while rest != {}
      invariant best in from && rest <= from
      invariant forall id :: id in from && id !in rest ==> !Better(jobs[id], jobs[best])
      decreases rest
    {
      var id :| id in rest;
      if Better(jobs[id], jobs[best]) {
        best := id;
      }
      rest := rest - {id};
    }
  }

  /** `ORDER BY priority DESC, created_at ASC LIMIT limit FOR UPDATE SKIP LOCKED`. */
  method BestBatch(db: Db, org: string, queue: string, at: int, limit: nat) returns (chosen: seq<JobId>)
    ensures IsBestBatch(db, org, queue, at, limit, chosen)
  {
    ghost var from := Candidates(db, org, queue, at);
    chosen := [];
    var left := set id | id in db.jobs && Eligible(db.jobs[id], org, queue, at) && !Locked(db, id);
    while |chosen| < limit && left != {}
      invariant Distinct(chosen) && |chosen| <= limit && |chosen| + |left| == |from|
      invariant left <= from && forall i :: 0 <= i < |chosen| ==> chosen[i] in from && chosen[i] !in left
      invariant forall id :: id in from && id !in left ==> id in chosen
      invariant forall i, j :: 0 <= i < j < |chosen| ==> !Better(db.jobs[chosen[j]], db.jobs[chosen[i]])
      invariant forall id :: id in left ==> forall i :: 0 <= i < |chosen| ==> !Better(db.jobs[id], db.jobs[chosen[i]])
      decreases left
    {
      var best := First(db.jobs, left);
      chosen := chosen + [best];
      left := left - {best};
    }
  }

  /** `sound` is the invariant, as a value: the proof of a method then sees it as one fact
      about the table rather than as all that it says. */
  ghost predicate IsSound(sound: Db -> bool) {
    forall db {:trigger Inv(db)} :: sound(db) <==> Inv(db)
  }

  lemma StaysSound(sound: Db -> bool, db: Db, op: Op)
    requires IsSound(sound) && sound(db) && Enabled(db, op)
    ensures sound(Apply(db, op))
  {
    var before, after := Inv(db), Inv(Apply(db, op));
    StepKeepsInv(db, op);
  }

  lemma SoundClaim(sound: Db -> bool, db: Db, txn: nat)
    requires IsSound(sound) && sound(db) && txn in db.claims
    ensures ClaimOk(db, db.claims[txn])
  {
    var before := Inv(db);
  }

  /** Each method updates the tables in place, is proved equal to its step and keeps the
      invariant, so the laws about runs hold of every sequence of calls. */
  class JobStore {
    var jobs: map<JobId, Row>
    var deadLetters: seq<DeadLetterRow>
    var now: int
    var uuids: set<string>
    var claims: map<nat, Claim>
    var calls: map<nat, FailCall>

    ghost const sound: Db -> bool

    function State(): Db
      reads this
    {
      Db(jobs, deadLetters, now, uuids, claims, calls)
    }

    ghost predicate Valid()
      reads this
    {
      IsSound(sound) && sound(State())
    }

    constructor (at: int)
      ensures Valid() && Init(State()) && now == at
    {
      jobs, deadLetters, now, uuids, claims, calls := map[], [], at, {}, map[], map[];
      sound := db => Inv(db);
      new;
      InitInv(State());
    }

    /** An oversized payload is refused before anything is written. A taken idempotency key
        inserts nothing and answers with the job that has it. */
    method Enqueue(id: JobId, job: NewJob, at: int) returns (r: Result<JobId, string>)
      requires Valid() && Enabled(State(), Op.Enqueue(id, job, at))
      modifies this
      ensures Valid()
      ensures r.Failure? <==> |job.payload| > 1024 * 1024
      ensures r.Failure? ==> State() == old(State())
      ensures r.Success? ==> State() == Apply(old(State()), Op.Enqueue(id, job, at))
      ensures r.Success? ==> r.value in jobs && jobs[r.value].org == job.org
                             && jobs[r.value].idempotencyKey == job.idempotencyKey
      ensures r.Success? && old(id !in jobs && !KeyTaken(State(), job.org, job.idempotencyKey)) ==> r.value == id
    {
      if |job.payload| > MAX_PAYLOAD {
        return Failure("payload too large");
      }
      ghost var before, op := State(), Op.Enqueue(id, job, at);
      if KeyTaken(State(), job.org, job.idempotencyKey) {
        var existing :| existing in jobs && jobs[existing].org == job.org
                        && jobs[existing].idempotencyKey == job.idempotencyKey;
        r := Success(existing);
      } else {
        var status := Pending;
        if job.scheduledAt.Some? && job.scheduledAt.value > at {
          status := Scheduled;
        }
        jobs := jobs[id := Row(job.org, job.queue, status, job.payload, job.priority, job.maxRetries, 0, at,
                               job.scheduledAt, None, Some(true), job.idempotencyKey, None, None, None, None)];
        r := Success(id);
      }
      uuids := uuids + {id};
      assert jobs == Jobs(before, op);
      StaysSound(sound, before, op);
    }

    /** The first half of a claim: choose the rows and lock them. */
    method SelectClaim(txn: nat, uuid: string, single: bool, worker: string, at: int, secs: int,
                       org: string, queue: string, limit: int)
      returns (chosen: seq<JobId>)
      requires Valid() && txn !in claims && uuid !in uuids && |uuid| == UUID_LENGTH && at <= now
      modifies this
      ensures Valid()
      ensures old(IsBestBatch(State(), org, queue, at, if single then 1 else Clamp(limit, 1, MAX_BATCH), chosen))
      ensures State() == Apply(old(State()), Op.SelectClaim(txn, uuid, single, chosen, worker, at, secs, org, queue, limit))
    {
      chosen := BestBatch(State(), org, queue, at, if single then 1 else Clamp(limit, 1, MAX_BATCH));
      ghost var before := State();
      ghost var op := Op.SelectClaim(txn, uuid, single, chosen, worker, at, secs, org, queue, limit);
      claims := claims[txn := Claim(uuid, single, chosen, worker, at, Clamp(secs, MIN_LEASE_SECS, MAX_LEASE_SECS))];
      uuids := uuids + {uuid};
      assert jobs == Jobs(before, op);
      StaysSound(sound, before, op);
    }

    method LeaseRows(c: Claim)
      requires Distinct(c.chosen) && forall i :: 0 <= i < |c.chosen| ==> c.chosen[i] in jobs
      modifies this`jobs
      ensures jobs == map id | id in old(jobs) ::
                        if id in c.chosen then Leased(old(jobs)[id], c, id) else old(jobs)[id]
    {
      ghost var rows := jobs;
      for i := 0 to |c.chosen|
        invariant jobs.Keys == rows.Keys
        invariant forall id :: id in rows ==>
                    jobs[id] == if id in c.chosen[..i] then Leased(rows[id], c, id) else rows[id]
      {
        var id := c.chosen[i];
        assert c.chosen[..i + 1] == c.chosen[..i] + [id];
        assert id !in c.chosen[..i];
        jobs := jobs[id := jobs[id].(status := Processing,
                                     worker := Some(c.worker),
                                     leaseId := Some(TokenFor(c, id)),
                                     leaseExpiresAt := Some(c.at + c.secs * SECOND),
                                     leaseDuration := Some(c.secs))];
      }
      assert c.chosen[..|c.chosen|] == c.chosen;
    }

    /** The second half: lease every chosen row and drop the locks. */
    method CommitClaim(txn: nat) returns (leased: seq<JobId>)
      requires Valid() && txn in claims
      modifies this
      ensures Valid()
      ensures leased == old(claims[txn].chosen)
      ensures State() == Apply(old(State()), Op.CommitClaim(txn))
      ensures forall i :: 0 <= i < |leased| ==>
                leased[i] in jobs && jobs[leased[i]].status.Processing?
                && jobs[leased[i]].leaseId == Some(TokenFor(old(claims[txn]), leased[i]))
    {
      ghost var before, op := State(), Op.CommitClaim(txn);
      var c := claims[txn];
      leased := c.chosen;
      SoundClaim(sound, before, txn);
      assert forall k :: 0 <= k < |leased| ==> Waiting(before, leased[k], c.at);
      LeaseRows(c);
      claims := claims - {txn};
      assert jobs == Jobs(before, op);
      StaysSound(sound, before, op);
    }

    /** A claim whose transaction fails leaves its rows as they were. */
    method AbortClaim(txn: nat)
      requires Valid() && txn in claims
      modifies this
      ensures Valid()
      ensures State() == Apply(old(State()), Op.AbortClaim(txn))
      ensures jobs == old(jobs) && claims == old(claims) - {txn}
    {
      ghost var before, op := State(), Op.AbortClaim(txn);
      claims := claims - {txn};
      assert jobs == Jobs(before, op);
      StaysSound(sound, before, op);
    }

    /** Time passes. */
    method Tick(time: int)
      requires Valid() && now <= time
      modifies this
      ensures Valid()
      ensures State() == Apply(old(State()), Op.Tick(time))
    {
      ghost var before, op := State(), Op.Tick(time);
      now := time;
      assert jobs == Jobs(before, op);
      StaysSound(sound, before, op);
    }

    /** Code outside the queue manager changes what a waiting job depends on, or its expiry. */
    method Touch(id: JobId, dependenciesMet: Option<bool>, expiresAt: Option<int>)
      requires Valid() && id in jobs && !Locked(State(), id)
      modifies this
      ensures Valid()
      ensures State() == Apply(old(State()), Op.External(id, dependenciesMet, expiresAt))
    {
      ghost var before, op := State(), Op.External(id, dependenciesMet, expiresAt);
      jobs := jobs[id := jobs[id].(dependenciesMet := dependenciesMet, expiresAt := expiresAt)];
      assert jobs == Jobs(before, op);
      StaysSound(sound, before, op);
    }

    /** Completes the caller's job and says whether a row was updated. */
    method Complete(c: Caller) returns (updated: bool)
      requires Valid()
      modifies this
      ensures Valid()
      ensures updated <==> old(Holds(State(), c))
      ensures State() == Apply(old(State()), Op.Complete(c))
    {
      ghost var before, op := State(), Op.Complete(c);
      updated := Holds(State(), c);
      if updated {
        jobs := jobs[c.job := jobs[c.job].(status := Completed)];
      }
      assert jobs == Jobs(before, op);
      StaysSound(sound, before, op);
    }

    /** A failing call's read of the retry counts. */
    method ReadFail(call: nat, c: Caller) returns (counts: Option<(int, int)>)
      requires Valid() && call !in calls
      modifies this
      ensures Valid()
      ensures counts.Some? <==> old(Holds(State(), c))
      ensures State() == Apply(old(State()), Op.ReadFail(call, c))
      ensures counts.Some? ==> call in calls && counts.value == (calls[call].retryCount, calls[call].maxRetries)
    {
      ghost var before, op := State(), Op.ReadFail(call, c);
      counts := None;
      if Holds(State(), c) {
        counts := Some((jobs[c.job].retryCount, jobs[c.job].maxRetries));
        calls := calls[call := FailCall(c, counts.value.0, counts.value.1, now)];
      }
      assert jobs == Jobs(before, op);
      StaysSound(sound, before, op);
    }

    /** Its write, decided on the counts that were read. */
    method WriteFail(call: nat, at: int, jitter: int, error: string) returns (updated: bool, willRetry: bool)
      requires Valid() && Enabled(State(), Op.WriteFail(call, at, jitter, error))
      modifies this
      ensures Valid()
      ensures updated <==> old(Holds(State(), calls[call].caller))
      ensures willRetry <==> updated && old(calls[call].retryCount < calls[call].maxRetries)
      ensures State() == Apply(old(State()), Op.WriteFail(call, at, jitter, error))
    {
      ghost var before, op := State(), Op.WriteFail(call, at, jitter, error);
      var f := calls[call];
      var id := f.caller.job;
      updated, willRetry := Holds(State(), f.caller), false;
      if updated {
        var r := jobs[id].(worker := None, leaseId := None, leaseExpiresAt := None);
        if f.retryCount < f.maxRetries {
          var next := at + BackoffSecs(f.retryCount) * SECOND + jitter;
          jobs := jobs[id := r.(status := Scheduled, retryCount := f.retryCount + 1, scheduledAt := Some(next))];
          willRetry := true;
        } else {
          jobs := jobs[id := r.(status := DeadLetter)];
          deadLetters := deadLetters + [DeadLetterRow(id, r.org, r.queue, r.payload, error, f.retryCount)];
        }
      }
      calls := calls - {call};
      assert jobs == Jobs(before, op);
      StaysSound(sound, before, op);
    }

    method Renew(c: Caller, requested: Option<int>, fallback: int) returns (updated: bool)
      requires Valid()
      modifies this
      ensures Valid()
      ensures updated <==> old(Holds(State(), c))
      ensures State() == Apply(old(State()), Op.Renew(c, requested, fallback))
    {
      ghost var before, op := State(), Op.Renew(c, requested, fallback);
      updated := Holds(State(), c);
      if updated {
        var r := jobs[c.job];
        var length := r.leaseDuration;
        if requested.Some? {
          length := Some(Clamp(requested.value, 1, MAX_INT32));
        }
        var secs := if length.Some? then length.value else Clamp(fallback, 1, MAX_INT32);
        jobs := jobs[c.job := r.(leaseExpiresAt := Some(now + secs * SECOND), leaseDuration := length)];
      }
      assert jobs == Jobs(before, op);
      StaysSound(sound, before, op);
    }

    /** `UPDATE jobs SET ... WHERE ...`: changes the rows that satisfy `where`, counts them. */
    method UpdateWhere(where: Row -> bool, change: Row -> Row) returns (count: nat)
      modifies this`jobs
      ensures jobs == map id | id in old(jobs) ::
                        if where(old(jobs)[id]) then change(old(jobs)[id]) else old(jobs)[id]
      ensures count == |set id | id in old(jobs) && where(old(jobs)[id])|
    {
      ghost var rows := jobs;
      ghost var changed: set<JobId> := {};
      var todo := jobs.Keys;
      count := 0;
      while todo != {}
        invariant jobs.Keys == rows.Keys && todo <= rows.Keys && count == |changed|
        invariant changed == set id | id in rows && id !in todo && where(rows[id])
        invariant forall id :: id in rows ==>
                    jobs[id] == if id !in todo && where(rows[id]) then change(rows[id]) else rows[id]
        decreases todo
      {
        var id :| id in todo;
        var row := jobs[id];
        if where(row) {
          jobs := jobs[id := change(row)];
          count := count + 1;
          changed := changed + {id};
        }
        todo := todo - {id};
      }
      assert changed == set id | id in rows && where(rows[id]);
    }

    /** Returns every job whose lease has run out to the queue. */
    method Recover() returns (count: nat)
      requires Valid()
      modifies this
      ensures Valid()
      ensures State() == Apply(old(State()), Op.Recover)
      ensures jobs == map id | id in old(jobs) ::
                        if old(jobs)[id].status.Processing? && old(jobs)[id].leaseExpiresAt.Some?
                           && old(jobs)[id].leaseExpiresAt.value <= old(now)
                        then old(jobs)[id].(status := Pending, worker := None, leaseId := None, leaseExpiresAt := None)
                        else old(jobs)[id]
      ensures count == |set id | id in old(jobs) && old(jobs)[id].status.Processing? && Expired(old(jobs)[id], old(now))|
    {
      var time := now;
      var where := (r: Row) => r.status.Processing? && r.leaseExpiresAt.Some? && r.leaseExpiresAt.value <= time;
      ghost var before, op := State(), Op.Recover;
      count := UpdateWhere(where, (r: Row) => r.(status := Pending, worker := None, leaseId := None,
                                                 leaseExpiresAt := None));
      assert jobs == Jobs(before, op);
      StaysSound(sound, before, op);
      assert (set id | id in before.jobs && where(before.jobs[id]))
          == set id | id in before.jobs && before.jobs[id].status.Processing? && Expired(before.jobs[id], time);
    }

    /** Returns the jobs on which a deregistering worker holds no live lease. */
    method ReleaseDeregistered(worker: string, org: string) returns (count: nat)
      requires Valid()
      modifies this
      ensures Valid()
      ensures State() == Apply(old(State()), Op.ReleaseDeregistered(worker, org))
      ensures count == |set id | id in old(jobs) && DeregisterReleases(old(jobs)[id], old(now), worker, org)|
    {
      var time := now;
      var where := (r: Row) => DeregisterReleases(r, time, worker, org);
      ghost var before, op := State(), Op.ReleaseDeregistered(worker, org);
      count := UpdateWhere(where, (r: Row) => r.(status := Pending, worker := None, leaseId := None,
                                                 leaseExpiresAt := None, retryCount := r.retryCount + 1));
      assert jobs == Jobs(before, op);
      StaysSound(sound, before, op);
      assert (set id | id in before.jobs && where(before.jobs[id]))
          == set id | id in before.jobs && DeregisterReleases(before.jobs[id], time, worker, org);
    }

    /** A process that shuts down gives back what its own workers hold. */
    method ReleaseLocal(workers: set<(string, string)>) returns (count: nat)
      requires Valid()
      modifies this
      ensures Valid()
      ensures State() == Apply(old(State()), Op.ReleaseLocal(workers))
      ensures count == |set id | id in old(jobs) && ShutdownReleases(old(jobs)[id], workers)|
    {
      var where := (r: Row) => ShutdownReleases(r, workers);
      ghost var before, op := State(), Op.ReleaseLocal(workers);
      count := UpdateWhere(where, (r: Row) => r.(status := Pending, worker := None, leaseId := None,
                                                 leaseExpiresAt := None));
      assert jobs == Jobs(before, op);
      StaysSound(sound, before, op);
      assert (set id | id in before.jobs && where(before.jobs[id]))
          == set id | id in before.jobs && ShutdownReleases(before.jobs[id], workers);
    }
  }
}
