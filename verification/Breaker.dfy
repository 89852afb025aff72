/** The failure breaker of an outgoing webhook: twenty failed deliveries in a row switch the
    webhook off and leave a marker that later attempt writes must not erase.
 */
module Breaker {
  import opened Wrappers

  const AUTO_DISABLE_FAILURE_THRESHOLD := 20
  const AUTO_DISABLED := "auto_disabled"

  datatype Webhook = Webhook(failureCount: int, enabled: bool, lastStatus: Option<string>)

  /** What this code writes to a webhook row. */
  datatype Write =
    | Outcome(delivered: bool)   // a delivery resolved
    | Attempt(success: bool)     // one attempt was logged

  function AttemptStatus(success: bool): string {
    if success then "success" else "failed"
  }

  function Apply(w: Webhook, e: Write): Webhook {
    match e
    case Outcome(delivered) =>
      var trips := !delivered && w.failureCount + 1 >= AUTO_DISABLE_FAILURE_THRESHOLD;
      Webhook(
        if delivered then 0 else w.failureCount + 1,
        if trips then false else w.enabled,
        if trips then Some(AUTO_DISABLED) else w.lastStatus)
    case Attempt(success) =>
      if w.lastStatus == Some(AUTO_DISABLED) && !w.enabled then w
      else w.(lastStatus := Some(AttemptStatus(success)))
  }

  class WebhookRow {
    var failureCount: int
    var enabled: bool
    var lastStatus: Option<string>

    function State(): Webhook
      reads this
    {
      Webhook(failureCount, enabled, lastStatus)
    }

    constructor ()
      ensures State() == Webhook(0, true, None)
    {
      failureCount, enabled, lastStatus := 0, true, None;
    }

    /** Every right-hand side of an SQL update reads the row as it was. */
    method RecordDeliveryOutcome(delivered: bool)
      modifies this
      ensures State() == Apply(old(State()), Outcome(delivered))
    {
      if delivered {
        failureCount := 0;
      } else {
        failureCount := failureCount + 1;
        if failureCount >= AUTO_DISABLE_FAILURE_THRESHOLD {
          enabled := false;
          lastStatus := Some(AUTO_DISABLED);
        }
      }
    }

    /** The user's edit that switches the webhook on again: a clean count, the old status. */
    method Reenable()
      modifies this
      ensures State() == Webhook(0, true, old(lastStatus))
    {
      failureCount, enabled := 0, true;
    }

    method RecordAttemptSummary(success: bool)
      modifies this
      ensures State() == Apply(old(State()), Attempt(success))
      ensures lastStatus == if old(Marked(State())) && !old(enabled) then old(lastStatus)
                            else Some(if success then "success" else "failed")
    {
      if !(lastStatus == Some(AUTO_DISABLED) && !enabled) {
        lastStatus := Some(AttemptStatus(success));
      }
    }
  }

  // ---------------------------------------------------------------------------
  // Runs
  // ---------------------------------------------------------------------------

  /** The webhook `w` after these writes. */
  ghost function After(w: Webhook, es: seq<Write>): Webhook {
    if es == [] then w else Apply(After(w, es[..|es| - 1]), es[|es| - 1])
  }

  /** The delivery outcomes among the writes. */
  ghost function Outcomes(es: seq<Write>): seq<bool> {
    if es == [] then []
    else
      var e := es[|es| - 1];
      Outcomes(es[..|es| - 1]) + if e.Outcome? then [e.delivered] else []
  }

  /** Length of the run of failures that ends the sequence. */
  ghost function TrailingFailures(outcomes: seq<bool>): (n: nat)
    ensures n <= |outcomes|
  {
    if outcomes == [] || outcomes[|outcomes| - 1] then 0
    else TrailingFailures(outcomes[..|outcomes| - 1]) + 1
  }

  /** The failures a webhook starts with, and then the outcomes. */
  ghost function History(w: Webhook, es: seq<Write>): seq<bool>
    requires w.failureCount >= 0
  {
    seq(w.failureCount, _ => false) + Outcomes(es)
  }

  /** Twenty failures in a row, starting at `i`. */
  ghost predicate FailureRun(outcomes: seq<bool>, i: nat) {
    i + 20 <= |outcomes| && forall k :: i <= k < i + 20 ==> !outcomes[k]
  }

  /** Twenty in a row, the last of them after the first `start`. */
  ghost predicate TwentyInARow(outcomes: seq<bool>, start: nat) {
    exists i: nat :: FailureRun(outcomes, i) && i + 20 > start
  }

  lemma {:induction false} TrailingExact(outcomes: seq<bool>)
    ensures var n := TrailingFailures(outcomes);
            && (forall k :: |outcomes| - n <= k < |outcomes| ==> !outcomes[k])
            && (n < |outcomes| ==> outcomes[|outcomes| - n - 1])
  {
    if outcomes != [] && !outcomes[|outcomes| - 1] {
      TrailingExact(outcomes[..|outcomes| - 1]);
    }
  }

  lemma {:induction false} TrailingOfFailures(n: nat)
    ensures TrailingFailures(seq(n, _ => false)) == n
  {
    if n > 0 {
      assert seq(n, _ => false)[..n - 1] == seq(n - 1, _ => false);
      TrailingOfFailures(n - 1);
    }
  }

  /** A new outcome completes a run of twenty exactly when twenty failures now end it. */
  lemma RunGrows(outcomes: seq<bool>, start: nat, delivered: bool)
    requires start <= |outcomes|
    ensures var longer := outcomes + [delivered];
            TwentyInARow(longer, start) <==>
            TwentyInARow(outcomes, start) || TrailingFailures(longer) >= AUTO_DISABLE_FAILURE_THRESHOLD
  {
    var longer := outcomes + [delivered];
    TrailingExact(longer);
    if TwentyInARow(outcomes, start) {
      var i: nat :| FailureRun(outcomes, i) && i + AUTO_DISABLE_FAILURE_THRESHOLD > start;
      assert FailureRun(longer, i);
    }
    if TrailingFailures(longer) >= AUTO_DISABLE_FAILURE_THRESHOLD {
      assert FailureRun(longer, |longer| - AUTO_DISABLE_FAILURE_THRESHOLD);
    }
    if TwentyInARow(longer, start) {
      var i: nat :| FailureRun(longer, i) && i + AUTO_DISABLE_FAILURE_THRESHOLD > start;
      if i + AUTO_DISABLE_FAILURE_THRESHOLD <= |outcomes| {
        assert forall k :: i <= k < i + AUTO_DISABLE_FAILURE_THRESHOLD ==> outcomes[k] == longer[k];
        assert FailureRun(outcomes, i);
      }
    }
  }

  /** The breaker trips: a failed outcome among the writes makes it twenty in a row. */
  ghost predicate Trips(w: Webhook, es: seq<Write>)
    requires w.failureCount >= 0
  {
    TwentyInARow(History(w, es), w.failureCount)
  }

  ghost predicate Marked(w: Webhook) {
    w.lastStatus == Some("auto_disabled")
  }

  ghost predicate NoAttempt(es: seq<Write>) {
    forall i :: 0 <= i < |es| ==> !es[i].Attempt?
  }

  /** What holds of `w` after the writes. */
  ghost predicate Exact(w: Webhook, es: seq<Write>)
    requires w.failureCount >= 0
  {
    var v := After(w, es);
    && v.failureCount == TrailingFailures(History(w, es))
    && (!v.enabled <==> !w.enabled || Trips(w, es))
    && (Marked(v) <==> Trips(w, es) || (Marked(w) && (!w.enabled || NoAttempt(es))))
  }

  lemma HistoryGrows(w: Webhook, es: seq<Write>, e: Write)
    requires w.failureCount >= 0
    ensures History(w, es + [e]) == History(w, es) + if e.Outcome? then [e.delivered] else []
    ensures NoAttempt(es + [e]) <==> NoAttempt(es) && !e.Attempt?
    ensures After(w, es + [e]) == Apply(After(w, es), e)
  {
    var longer := es + [e];
    assert longer[..|longer| - 1] == es && longer[|longer| - 1] == e;
    if NoAttempt(longer) {
      assert forall i :: 0 <= i < |es| ==> longer[i] == es[i];
    }
  }

  lemma TrailingGrows(outcomes: seq<bool>, delivered: bool)
    ensures TrailingFailures(outcomes + [delivered]) == if delivered then 0 else TrailingFailures(outcomes) + 1
  {
    assert (outcomes + [delivered])[..|outcomes|] == outcomes;
  }

  lemma ExactAfter(w: Webhook, es: seq<Write>, e: Write)
    requires w.failureCount >= 0 && Exact(w, es)
    ensures Exact(w, es + [e])
  {
    HistoryGrows(w, es, e);
    if e.Outcome? {
      TrailingGrows(History(w, es), e.delivered);
      RunGrows(History(w, es), w.failureCount, e.delivered);
    } else {
      assert History(w, es + [e]) == History(w, es);
    }
  }

  /** From any webhook, new, re-enabled with its old marker, or switched off, over any writes
      without a user edit: the count is the trailing run of failures, the webhook is off
      exactly when it was or twenty failures in a row have switched it off, and it carries the
      marker exactly when that happened or the marker it came with has not been written over. */
  lemma {:induction false} BreakerExact(w: Webhook, es: seq<Write>)
    requires w.failureCount >= 0
    ensures After(w, es).failureCount == TrailingFailures(History(w, es))
    ensures !After(w, es).enabled <==> !w.enabled || Trips(w, es)
    ensures Marked(After(w, es)) <==> Trips(w, es) || (Marked(w) && (!w.enabled || NoAttempt(es)))
  {
    if es == [] {
      assert History(w, es) == seq(w.failureCount, _ => false);
      TrailingOfFailures(w.failureCount);
    } else {
      var before := es[..|es| - 1];
      BreakerExact(w, before);
      ExactAfter(w, before, es[|es| - 1]);
      assert before + [es[|es| - 1]] == es;
    }
  }

  /** From an enabled webhook with a clean count: off exactly when twenty failures in a row have
      occurred, and then marked; without them the marker is only ever one left from before,
      which the first attempt writes over. */
  lemma BreakerFromZero(w: Webhook, es: seq<Write>)
    requires w.enabled && w.failureCount == 0
    ensures After(w, es).failureCount == TrailingFailures(Outcomes(es))
    ensures !After(w, es).enabled <==> exists i: nat :: FailureRun(Outcomes(es), i)
    ensures Marked(After(w, es)) <==> !After(w, es).enabled || (Marked(w) && NoAttempt(es))
  {
    BreakerExact(w, es);
    assert History(w, es) == Outcomes(es);
  }

  /** Once the breaker has switched it off, nothing this code writes switches it on or erases
      the marker. */
  lemma OffStaysMarked(w: Webhook, es: seq<Write>, more: seq<Write>)
    requires w.failureCount >= 0 && !After(w, es).enabled && Marked(After(w, es))
    ensures !After(w, es + more).enabled && Marked(After(w, es + more))
    decreases more
  {
    if more != [] {
      var last := |more| - 1;
      OffStaysMarked(w, es, more[..last]);
      assert (es + more)[..|es + more| - 1] == es + more[..last];
    } else {
      assert es + more == es;
    }
  }
}
