/** When the delivery queue drops an item, makes it wait or forgets a lane: exactly when a
    limit is reached, said of what is in the queue rather than of its semaphores.
 */
module DeliveryDrops {
  import opened Wrappers
  import opened DeliveryQueue
  import opened DeliveryLaws

  /** Whoever holds a share for `webhook`: its live deliveries, and fan-outs about to make one. */
  ghost function Holders(s: State, webhook: string): set<Owner> {
    set o | o in s.shares && s.shares[o] in s.webhooks && s.webhooks[s.shares[o]] == webhook
  }

  lemma HoldersCount(s: State, webhook: string)
    requires LanesOk(s.lanes, s.webhooks) && LiveLanesOk(s.shares, s.webhooks, s.lanes)
    ensures webhook in s.lanes ==> |Holders(s, webhook)| == Count(s.shares, s.lanes[webhook])
    ensures webhook !in s.lanes ==> Holders(s, webhook) == {}
  {
    forall o | o in s.shares && s.shares[o] in s.webhooks && s.webhooks[s.shares[o]] == webhook
      ensures webhook in s.lanes && s.shares[o] == s.lanes[webhook]
    {
      assert Current(s.shares[o], s.webhooks, s.lanes);
    }
    if webhook in s.lanes {
      assert Holders(s, webhook) == set o | o in s.shares && s.shares[o] == s.lanes[webhook];
    }
  }

  /** The step finds no room: every permit is in use, or the webhook's whole share is. */
  ghost predicate NoRoom(s: State, op: Op) {
    match op
    case QueueEvent(_) => |s.tickets| == s.limits.queueCapacity
    case TakeShare(f, _) =>
      f in s.fans && s.fans[f].remaining != []
      && |Holders(s, s.fans[f].remaining[0])| == s.limits.perWebhookQueue
    case TakePermit(f, _) => f in s.fans && s.fans[f].carried.None? && |s.tickets| == s.limits.queueCapacity
    case _ => false
  }

  /** What is known of the lanes in every reachable state. */
  ghost predicate LanesKnown(s: State) {
    && LanesOk(s.lanes, s.webhooks) && LiveLanesOk(s.shares, s.webhooks, s.lanes)
    && s.laneTable.Keys == s.webhooks.Keys && ShareCountOk(s.laneTable, s.shares, s.limits)
    && s.limits.perWebhookQueue >= 1
  }

  lemma TryDrops(s: State, f: FanId, l: LaneId)
    ensures TryShare(s, f, l).dropped == s.dropped + if LaneAt(s, l).share > 0 then 0 else 1
  {
  }

  lemma LaneOffered(s: State, webhook: string, id: LaneId)
    requires LanesKnown(s)
    ensures var n := WithLane(s, webhook, id);
            && n.dropped == s.dropped && webhook in n.lanes
            && (LaneAt(n, n.lanes[webhook]).share > 0 <==> |Holders(s, webhook)| != s.limits.perWebhookQueue)
  {
    HoldersCount(s, webhook);
    if webhook in s.lanes {
      assert s.lanes[webhook] in s.laneTable;
    }
  }

  lemma ShareRefused(s: State, f: FanId, id: LaneId)
    requires LanesKnown(s) && Enabled(s, TakeShare(f, id))
    ensures TakeShareStep(s, f, id).dropped
            == s.dropped + if |Holders(s, s.fans[f].remaining[0])| == s.limits.perWebhookQueue then 1 else 0
  {
    var webhook := s.fans[f].remaining[0];
    LaneOffered(s, webhook, id);
    var n := WithLane(s, webhook, id);
    TryDrops(n, f, n.lanes[webhook]);
  }

  lemma PermitRefused(s: State, f: FanId, t: TicketId)
    requires PermitsOk(s.admission, s.tickets, s.limits) && Enabled(s, TakePermit(f, t))
    ensures TakePermitStep(s, f, t).dropped == s.dropped + if NoRoom(s, TakePermit(f, t)) then 1 else 0
  {
  }

  lemma EventRefused(s: State, t: TicketId)
    requires PermitsOk(s.admission, s.tickets, s.limits) && Enabled(s, QueueEvent(t))
    ensures Apply(s, QueueEvent(t)).dropped == s.dropped + if |s.tickets| == s.limits.queueCapacity then 1 else 0
  {
  }

  ghost predicate Plain(op: Op) {
    op.Receive? || op.BeginFan? || op.Request? || op.EndRequest? || op.ManualBegin? || op.ManualEnd?
  }

  lemma PlainDropsNothing(s: State, op: Op)
    requires Enabled(s, op) && Plain(op)
    ensures Apply(s, op).dropped == s.dropped && !NoRoom(s, op)
  {
  }

  ghost predicate WorksOn(op: Op) {
    op.Work? || op.LaneTurn? || op.LeaveLane? || op.Conclude? || op.Retry?
  }

  lemma WorkDropsNothing(s: State, op: Op)
    requires Enabled(s, op) && WorksOn(op)
    ensures Apply(s, op).dropped == s.dropped && !NoRoom(s, op)
  {
  }

  lemma EndDropsNothing(s: State, f: FanId)
    requires f in s.fans
    ensures EndFanStep(s, f).dropped == s.dropped
  {
  }

  lemma StepDrops(s: State, op: Op)
    requires PermitsOk(s.admission, s.tickets, s.limits) && LanesKnown(s) && Enabled(s, op) && !op.Send?
    ensures Apply(s, op).dropped == s.dropped + if NoRoom(s, op) then 1 else 0
  {
    match op
    case TakeShare(f, id) => ShareRefused(s, f, id);
    case TakePermit(f, t) => PermitRefused(s, f, t);
    case QueueEvent(t) => EventRefused(s, t);
    case EndFan(f) => EndDropsNothing(s, f);
    case _ =>
      if WorksOn(op) {
        WorkDropsNothing(s, op);
      } else {
        PlainDropsNothing(s, op);
      }
  }

  lemma RunLanes(run: Run, i: nat)
    requires run.Valid() && i < |run.states|
    ensures LanesKnown(run.states[i])
    ensures PermitsOk(run.states[i].admission, run.states[i].tickets, run.states[i].limits)
  {
    RunInv(run, i);
  }

  /** Something is dropped exactly when a step finds no room, one item at a time: an event or
      a delivery when every admission permit is in use, a delivery when its webhook's share
      of the queue is. A send, a retry or a release never drops anything. */
  lemma DropsExactly(run: Run, i: nat)
    requires run.Valid() && i < |run.ops|
    ensures run.states[i + 1].dropped
            == run.states[i].dropped + if NoRoom(run.states[i], run.ops[i]) then 1 else 0
  {
    var s, op := run.states[i], run.ops[i];
    if op.Send? {
      SendNeverFull(run, i);
    } else {
      RunLanes(run, i);
      assert Follows(s, op, run.states[i + 1]);
      StepDrops(s, op);
    }
  }

  lemma WorkGranted(s: State, t: TicketId)
    requires Enabled(s, Work(t)) && ByTicket(t) in s.shares && s.shares[ByTicket(t)] in s.laneTable
    requires SlotCountOk(s.laneTable, s.slots, s.limits)
    ensures var n := WorkStep(s, t);
            && (t in n.slots <==> Count(s.slots, s.shares[ByTicket(t)]) < s.limits.perWebhookConcurrency)
            && (t in n.slots ==> n.tickets == s.tickets && n.slots[t] == s.shares[ByTicket(t)])
            && (t !in n.slots ==> At(n, t, Waiting))
  {
    var l := s.shares[ByTicket(t)];
    assert t in SlotSeekers(s) <==> s.laneTable[l].slots > 0;
    assert s.laneTable[l].slots + Count(s.slots, l) == s.limits.perWebhookConcurrency;
  }

  lemma RunSlots(run: Run, i: nat, t: TicketId)
    requires run.Valid() && i < |run.states| && t in run.states[i].tickets && run.states[i].tickets[t].Delivery?
    ensures var s := run.states[i];
            && ByTicket(t) in s.shares && s.shares[ByTicket(t)] in s.laneTable
            && SlotCountOk(s.laneTable, s.slots, s.limits)
  {
    RunInv(run, i);
    LaneOfTicket(run.states[i], t);
  }

  /** A delivery is given a slot of its lane at once exactly when fewer than the webhook's
      slots are in use; otherwise it waits. */
  lemma WaitsExactly(run: Run, i: nat)
    requires run.Valid() && i < |run.ops| && run.ops[i].Work?
    ensures var s, n, t := run.states[i], run.states[i + 1], run.ops[i].ticket;
            && ByTicket(t) in s.shares
            && (t in n.slots <==> Count(s.slots, s.shares[ByTicket(t)]) < s.limits.perWebhookConcurrency)
            && (t in n.slots ==> n.tickets == s.tickets && n.slots[t] == s.shares[ByTicket(t)])
            && (t !in n.slots ==> At(n, t, Waiting))
  {
    var s, t := run.states[i], run.ops[i].ticket;
    assert Follows(s, run.ops[i], run.states[i + 1]);
    RunSlots(run, i, t);
    WorkGranted(s, t);
  }

  /** A delivery that waits for its lane, whose outcome is being written or that sleeps before
      a retry holds no slot of any kind. */
  lemma IdleHoldsNoSlot(run: Run, i: nat, t: TicketId)
    requires run.Valid() && i < |run.states|
    requires At(run.states[i], t, Waiting) || At(run.states[i], t, Settling) || At(run.states[i], t, Backoff)
    ensures t !in run.states[i].slots && t !in run.states[i].sending
  {
    RunInv(run, i);
  }

  lemma LaneForgotten(s: State, webhook: string, id: LaneId, w: string)
    requires LanesKnown(s) && w in s.lanes && w != webhook
    ensures var n := WithLane(s, webhook, id);
            && (w !in n.lanes <==> |s.lanes| >= 1024 && webhook !in s.lanes && Holders(s, w) == {})
            && (w in n.lanes ==> n.lanes[w] == s.lanes[w])
  {
    HoldersCount(s, w);
    assert s.lanes[w] in s.laneTable;
  }

  lemma TryKeepsLanes(s: State, f: FanId, l: LaneId)
    ensures TryShare(s, f, l).lanes == s.lanes
  {
  }

  /** Another webhook's lane is forgotten exactly when the map has 1024 lanes or more, the
      arriving webhook has none, and nobody holds a share of it. */
  lemma ForgetsExactly(run: Run, i: nat, w: string)
    requires run.Valid() && i < |run.ops| && run.ops[i].TakeShare? && w in run.states[i].lanes
    requires run.ops[i].fan in run.states[i].fans && run.states[i].fans[run.ops[i].fan].remaining != []
    requires w != run.states[i].fans[run.ops[i].fan].remaining[0]
    ensures var s, n := run.states[i], run.states[i + 1];
            var webhook := s.fans[run.ops[i].fan].remaining[0];
            && (w !in n.lanes <==> |s.lanes| >= 1024 && webhook !in s.lanes && Holders(s, w) == {})
            && (w in n.lanes ==> n.lanes[w] == s.lanes[w])
  {
    var s, op := run.states[i], run.ops[i];
    var webhook := s.fans[op.fan].remaining[0];
    RunLanes(run, i);
    LaneForgotten(s, webhook, op.lane, w);
    assert Follows(s, op, run.states[i + 1]);
    var n := WithLane(s, webhook, op.lane);
    TryKeepsLanes(n, op.fan, if webhook in n.lanes then n.lanes[webhook] else 0);
  }

  /** The limits in numbers: n slots, clamped to 1024, a queue sixteen times as long, and a
      quarter of each, at least one, for a single webhook. Limits are corrected exactly when
      they are out of range. */
  lemma LimitsInNumbers(l: Limits, n: nat)
    ensures 1 <= n <= 1024 ==> FromConcurrency(n) == Limits(n, 16 * n, if n < 4 then 1 else n / 4, 4 * n)
    ensures FromConcurrency(0) == FromConcurrency(1)
    ensures n > 1024 ==> FromConcurrency(n) == FromConcurrency(1024)
    ensures Normalized(l) == l <==>
              && 1 <= l.perWebhookConcurrency <= l.maxConcurrent <= 1024
              && 1 <= l.perWebhookQueue <= l.queueCapacity <= 1048576
  {
  }
}
