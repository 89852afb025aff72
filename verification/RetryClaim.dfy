/** Retrying one webhook delivery.

    The automatic retries of a delivery and any number of manual retries share its row. A
    retry first claims the row by a compare-and-swap on the attempt count, then sends, then
    records under its claim token. Each statement is one step; database writes may fail, with
    or without having taken effect. Times are milliseconds.
 */
module RetryClaim {
  import opened Wrappers

  const MAX_MANUAL_ATTEMPTS := 10
  const STALE_CLAIM := 120000

  datatype Status = Failed | Succeeded

  /** The delivery's row. */
  datatype Row = Row(status: Status, attempts: int, token: int, claimedAt: Option<int>)

  datatype Claim = Claim(attempts: int, token: int)

  /** What one attempt came to. */
  datatype Attempt = Delivered | Failed | Rejected | Superseded | Released

  /** What became of an attempt's row write. */
  datatype Recorded = Applied | Overtaken | Freed

  datatype Write = Lands | Fails(landed: bool)

  /** A sender of this delivery. Sender 0 is the automatic one, the others are manual. */
  datatype Sender =
    | Ready(attempt: int)                                               // queued or in backoff
    | Missed(attempt: int)                                              // its claim matched no row
    | Observed(seen: int)                                               // manual: has read the row
    | Cleared(attempt: int, claim: Option<Claim>)                       // may send
    | Sent(attempt: int, claim: Option<Claim>, outcome: Attempt)        // to be recorded
    | Releasing(attempt: int, claim: Option<Claim>, outcome: Attempt)   // its record failed
    | Done

  datatype State = State(
    row: Option<Row>,
    now: int,
    maxAttempts: int,
    senders: map<nat, Sender>,
    requests: seq<int>)          // the attempt number of every request sent

  // ---------------------------------------------------------------------------
  // Statements
  // ---------------------------------------------------------------------------

  predicate CanClaim(row: Option<Row>, now: int, observed: int, cap: Option<int>) {
    && row.Some?
    && row.value.status == Status.Failed
    && row.value.attempts == observed
    && (cap.None? || row.value.attempts < cap.value)
    && (row.value.claimedAt.None? || row.value.claimedAt.value < now - STALE_CLAIM)
  }

  function ClaimRow(row: Option<Row>, now: int, observed: int, cap: Option<int>): Option<Row> {
    if CanClaim(row, now, observed, cap) then
      Some(row.value.(attempts := row.value.attempts + 1, token := row.value.token + 1, claimedAt := Some(now)))
    else row
  }

  /** The claim's row, as long as it has not succeeded and nobody claimed it since. */
  predicate Owns(row: Option<Row>, c: Claim) {
    row.Some? && row.value.token == c.token && row.value.status == Status.Failed
  }

  function StatusOf(outcome: Attempt): Status {
    if outcome.Delivered? then Succeeded else Status.Failed
  }

  /** The row after an attempt's write takes effect: guarded by the token for a claimed
      retry, an upsert otherwise. */
  function RecordRow(row: Option<Row>, claim: Option<Claim>, attempt: int, outcome: Attempt): Option<Row> {
    match claim
    case Some(c) =>
      if Owns(row, c)
      then Some(row.value.(status := StatusOf(outcome), attempts := attempt, claimedAt := None))
      else row
    case None =>
      if row.Some? then Some(row.value.(status := StatusOf(outcome), attempts := attempt))
      else Some(Row(StatusOf(outcome), attempt, 0, None))
  }

  function ReleaseRow(row: Option<Row>, c: Claim): Option<Row> {
    if Owns(row, c) then Some(row.value.(claimedAt := None)) else row
  }

  /** What the sender acts on, given what became of its row write. */
  function Settle(recorded: Recorded, applied: Attempt): Attempt {
    match recorded
    case Applied => applied
    case Overtaken => Superseded
    case Freed => if applied.Failed? then Released else if applied.Rejected? then Rejected else Superseded
  }

  // ---------------------------------------------------------------------------
  // Steps
  // ---------------------------------------------------------------------------

  datatype Op =
    | Tick(now: int)
    | Begin(who: nat)                            // attempt 1 needs no claim
    | TryClaim(who: nat, write: Write)
    | Look(who: nat)                             // does the row exist?
    | Read(who: nat)                             // a manual retry reads the row
    | Send(who: nat, outcome: Attempt)
    | Record(who: nat, write: Write)
    | Release(who: nat, landed: bool)
    | Abandon(who: nat)

  predicate Enabled(s: State, op: Op) {
    match op
    case Tick(now) => s.now <= now
    case Begin(who) => who in s.senders && s.senders[who] == Ready(1)
    case TryClaim(who, _) =>
      who in s.senders && ((s.senders[who].Ready? && s.senders[who].attempt > 1) || s.senders[who].Observed?)
    case Look(who) => who in s.senders && s.senders[who].Missed?
    case Read(who) => who !in s.senders
    case Send(who, outcome) =>
      who in s.senders && s.senders[who].Cleared? && (outcome.Delivered? || outcome.Failed? || outcome.Rejected?)
    case Record(who, _) => who in s.senders && s.senders[who].Sent?
    case Release(who, _) => who in s.senders && s.senders[who].Releasing?
    case Abandon(who) => who in s.senders
  }

  /** The attempt count a claim expects, and the cap on a manual one. */
  function Expected(b: Sender): int
    requires b.Ready? || b.Observed?
  {
    if b.Ready? then b.attempt - 1 else b.seen
  }

  function Cap(b: Sender): Option<int> {
    if b.Observed? then Some(MAX_MANUAL_ATTEMPTS) else None
  }

  /** Where a sender goes after an attempt: the automatic one retries within its budget. */
  function Resume(who: nat, attempt: int, outcome: Attempt, maxAttempts: int): Sender {
    if who == 0 && (outcome.Failed? || outcome.Released?) && attempt < maxAttempts then Ready(attempt + 1) else Done
  }

  function RowAfter(s: State, op: Op): Option<Row>
    requires Enabled(s, op)
  {
    match op
    case TryClaim(who, write) =>
      if write.Lands? || write.landed
      then ClaimRow(s.row, s.now, Expected(s.senders[who]), Cap(s.senders[who])) else s.row
    case Record(who, write) =>
      var b := s.senders[who];
      if write.Lands? || write.landed then RecordRow(s.row, b.claim, b.attempt, b.outcome) else s.row
    case Release(who, landed) =>
      var b := s.senders[who];
      if landed && b.claim.Some? then ReleaseRow(s.row, b.claim.value) else s.row
    case _ => s.row
  }

  function SenderAfter(s: State, op: Op): Sender
    requires Enabled(s, op) && !op.Tick?
  {
    match op
    case Begin(who) => Cleared(1, None)
    case TryClaim(who, write) =>
      var b := s.senders[who];
      if write.Fails? then Done
      else if CanClaim(s.row, s.now, Expected(b), Cap(b)) then
        Cleared(s.row.value.attempts + 1, Some(Claim(s.row.value.attempts + 1, s.row.value.token + 1)))
      else if b.Ready? then Missed(b.attempt)
      else Done
    case Look(who) => if s.row.Some? then Done else Cleared(s.senders[who].attempt, None)
    case Read(who) =>
      if s.row.Some? && s.row.value.status == Status.Failed then Observed(s.row.value.attempts) else Done
    case Send(who, outcome) => Sent(s.senders[who].attempt, s.senders[who].claim, outcome)
    case Record(who, write) =>
      var b := s.senders[who];
      if b.claim.Some? && write.Fails? then Releasing(b.attempt, b.claim, b.outcome)
      else
        var recorded := if b.claim.None? || Owns(s.row, b.claim.value) then Applied else Overtaken;
        Resume(who, b.attempt, Settle(recorded, b.outcome), s.maxAttempts)
    case Release(who, _) =>
      var b := s.senders[who];
      Resume(who, b.attempt, Settle(Freed, b.outcome), s.maxAttempts)
    case Abandon(_) => Done
  }

  function Apply(s: State, op: Op): State
    requires Enabled(s, op)
  {
    if op.Tick? then s.(now := op.now)
    else
      s.(row := RowAfter(s, op),
         senders := s.senders[op.who := SenderAfter(s, op)],
         requests := if op.Send? && !op.outcome.Rejected? then s.requests + [s.senders[op.who].attempt]
                     else s.requests)
  }

  // ---------------------------------------------------------------------------
  // The row, updated in place
  // ---------------------------------------------------------------------------

  class DeliveryRow {
    var row: Option<Row>

    constructor ()
      ensures row == None
    {
      row := None;
    }

    method ClaimRetry(observed: int, cap: Option<int>, now: int) returns (claim: Option<Claim>)
      modifies this
      ensures row == ClaimRow(old(row), now, observed, cap)
      ensures claim.Some? <==>
                && old(row).Some? && old(row).value.status == Status.Failed && old(row).value.attempts == observed
                && !(cap.Some? && observed >= cap.value)
                && !(old(row).value.claimedAt.Some? && now - old(row).value.claimedAt.value <= 120000)
      ensures claim.None? ==> row == old(row)
      ensures claim.Some? ==> Owns(row, claim.value) && claim.value.attempts == observed + 1
                              && row.value.attempts == observed + 1 && row.value.claimedAt == Some(now)
                              && claim.value.token == old(row).value.token + 1
    {
      claim := None;
      if row.Some? && row.value.status == Status.Failed && row.value.attempts == observed
         && (cap.None? || observed < cap.value)
         && (row.value.claimedAt.None? || row.value.claimedAt.value < now - STALE_CLAIM)
      {
        row := Some(row.value.(attempts := observed + 1, token := row.value.token + 1, claimedAt := Some(now)));
        claim := Some(Claim(row.value.attempts, row.value.token));
      }
    }

    /** Writes one attempt; `write` and `released` say how the database answers. */
    method RecordAttempt(claim: Option<Claim>, attempt: int, outcome: Attempt, write: Write, released: bool)
      returns (recorded: Recorded)
      modifies this
      ensures recorded.Freed? <==> claim.Some? && write.Fails?
      ensures recorded.Overtaken? <==> claim.Some? && write.Lands? && !old(Owns(row, claim.value))
      ensures recorded.Applied? && (write.Lands? || write.landed) ==>
                && row.Some? && row.value.attempts == attempt
                && (row.value.status == Succeeded <==> outcome.Delivered?)
      ensures var written := if write.Lands? || write.landed then RecordRow(old(row), claim, attempt, outcome)
                             else old(row);
              row == if recorded.Freed? && released then ReleaseRow(written, claim.value) else written
    {
      var takesEffect := write.Lands? || write.landed;
      if claim.Some? {
        var owned := row.Some? && row.value.token == claim.value.token && row.value.status == Status.Failed;
        if takesEffect && owned {
          row := Some(row.value.(status := StatusOf(outcome), attempts := attempt, claimedAt := None));
        }
        if write.Fails? {
          if released && row.Some? && row.value.token == claim.value.token && row.value.status == Status.Failed {
            row := Some(row.value.(claimedAt := None));
          }
          return Freed;
        }
        recorded := if owned then Applied else Overtaken;
      } else {
        if takesEffect {
          var inserted := Row(StatusOf(outcome), attempt, 0, None);
          row := Some(if row.Some? then row.value.(status := StatusOf(outcome), attempts := attempt) else inserted);
        }
        recorded := Applied;
      }
    }
  }
}
