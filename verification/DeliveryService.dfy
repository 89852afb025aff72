/** The delivery service's own methods, updating semaphores, channel and lane map in place. */
module DeliveryService {
  import opened Wrappers
  import opened DeliveryQueue
  import opened DeliveryLaws

  /** An id not in use. */
  method Unused(ids: set<nat>) returns (n: nat)
    ensures n !in ids
  {
    n := 0;
    ghost var seen: set<nat> := {};
    while n in ids
      invariant seen <= ids && |seen| == n && forall k :: k in seen ==> k < n
      decreases |ids| - n
    {
      SubsetSize(seen + {n}, ids);
      seen := seen + {n};
      n := n + 1;
    }
  }

  // ---------------------------------------------------------------------------
  // What the steps of a fan-out do to the counts
  // ---------------------------------------------------------------------------

  /** Shares in use belong to lanes that exist. */
  ghost predicate Wired(shares: map<Owner, LaneId>, table: map<LaneId, Lane>) {
    forall o :: o in shares ==> shares[o] in table
  }

  lemma LaneFacts(s: State, webhook: string, id: LaneId)
    requires Wired(s.shares, s.laneTable)
    ensures var n := WithLane(s, webhook, id);
            && n == s.(lanes := n.lanes, laneTable := n.laneTable, webhooks := n.webhooks)
            && Wired(s.shares, n.laneTable)
  {
  }

  lemma ShareFacts(s: State, f: FanId, l: LaneId)
    requires Wired(s.shares, s.laneTable) && f in s.fans && s.fans[f].remaining != [] && ByFan(f) !in s.shares
    ensures var n := TryShare(s, f, l);
            && Wired(n.shares, n.laneTable)
            && n.tickets == s.tickets && n.channel == s.channel && n.admission == s.admission
            && n.dropped == s.dropped + (if ByFan(f) in n.shares then 0 else 1)
            && n.fans == if ByFan(f) in n.shares then s.fans
                         else s.fans[f := Fan(s.fans[f].carried, s.fans[f].remaining[1..])]
  {
    var n := TryShare(s, f, l);
    if LaneAt(s, l).share > 0 {
      assert n == s.(shares := s.shares[ByFan(f) := l], laneTable := n.laneTable);
    } else {
      assert n == s.(fans := n.fans, dropped := n.dropped);
    }
  }

  lemma PermitFacts(s: State, f: FanId, t: TicketId)
    requires Wired(s.shares, s.laneTable)
    requires f in s.fans && s.fans[f].remaining != [] && ByFan(f) in s.shares && t !in s.tickets
    requires s.fans[f].carried.Some? ==> s.fans[f].carried.value in s.tickets
    ensures var n := TakePermitStep(s, f, t);
            && Wired(n.shares, n.laneTable) && ByFan(f) !in n.shares
            && n.channel == s.channel && n.admission + |n.tickets| == s.admission + |s.tickets|
            && n.fans == s.fans[f := Fan(None, s.fans[f].remaining[1..])]
            && n.dropped == s.dropped + (if s.fans[f].carried.Some? || s.admission > 0 then 0 else 1)
  {
    var item := Delivery(s.fans[f].remaining[0], Sendable);
    SizeAdd(s.tickets, t, item);
    if s.fans[f].carried.Some? {
      SizeAdd(s.tickets, s.fans[f].carried.value, item);
    }
  }

  lemma AddedThenRemoved(before: map<FanId, Fan>, f: FanId, after: map<FanId, Fan>)
    requires f !in before && f in after && after == before[f := after[f]]
    ensures after - {f} == before
  {
  }

  // ---------------------------------------------------------------------------
  // The invariant
  // ---------------------------------------------------------------------------

  /** `sound` is the invariant, as a value: the proof of a method then sees it as one fact
      about the queue rather than as all that it says. */
  ghost predicate IsSound(sound: State -> bool) {
    forall s {:trigger Inv(s)} :: sound(s) <==> Inv(s)
  }

  lemma StaysSound(sound: State -> bool, s: State, op: Op)
    requires IsSound(sound) && sound(s) && Enabled(s, op)
    ensures sound(Apply(s, op))
  {
    var before, after := Inv(s), Inv(Apply(s, op));
    StepKeepsInv(s, op);
  }

  lemma SoundStart(sound: State -> bool, limits: Limits)
    requires IsSound(sound) && limits == Normalized(limits)
    ensures sound(Start(limits))
  {
    StartInv(limits);
    var start := Inv(Start(limits));
  }

  lemma SoundWiring(sound: State -> bool, s: State)
    requires IsSound(sound) && sound(s)
    ensures Wired(s.shares, s.laneTable)
    ensures forall f :: f in s.fans && s.fans[f].carried.Some? ==> s.fans[f].carried.value in s.tickets
    ensures forall f :: f !in s.fans ==> ByFan(f) !in s.shares
    ensures forall t :: t in s.tickets && s.tickets[t].Delivery? ==> ByTicket(t) in s.shares
  {
    var now := Inv(s);
    forall o | o in s.shares
      ensures s.shares[o] in s.laneTable
    {
      assert Current(s.shares[o], s.webhooks, s.lanes);
    }
  }

  lemma SoundAdmission(sound: State -> bool, s: State, t: TicketId)
    requires IsSound(sound) && sound(s) && t !in s.tickets
    ensures s.admission > 0 ==> sound(s.(admission := s.admission - 1, tickets := s.tickets[t := Event(Sendable)]))
    ensures s.admission <= 0 ==> sound(Drop(s))
  {
    StaysSound(sound, s, QueueEvent(t));
  }

  lemma SoundSend(sound: State -> bool, s: State, t: TicketId)
    requires IsSound(sound) && sound(s) && (At(s, t, Sendable) || DeliveryAt(s, t, Backoff))
    ensures |s.channel| < s.limits.queueCapacity
    ensures sound(s.(tickets := s.tickets[t := s.tickets[t].(place := Queued)], channel := s.channel + [t]))
  {
    var now := Inv(s);
    RoomToSend(s, t);
    StaysSound(sound, s, Send(t));
  }

  lemma SoundBegin(sound: State -> bool, s: State, f: FanId, carried: Option<TicketId>, matching: seq<string>)
    requires IsSound(sound) && sound(s) && CanBegin(s, f, carried)
    ensures sound(s.(fans := s.fans[f := Fan(carried, matching)]))
  {
    StaysSound(sound, s, BeginFan(f, carried, matching));
  }

  lemma SoundShare(sound: State -> bool, s: State, f: FanId, id: LaneId)
    requires IsSound(sound) && sound(s)
    requires f in s.fans && s.fans[f].remaining != [] && ByFan(f) !in s.shares && id !in s.laneTable
    ensures sound(TakeShareStep(s, f, id))
  {
    StaysSound(sound, s, TakeShare(f, id));
  }

  lemma SoundPermit(sound: State -> bool, s: State, f: FanId, t: TicketId)
    requires IsSound(sound) && sound(s)
    requires f in s.fans && s.fans[f].remaining != [] && ByFan(f) in s.shares && t !in s.tickets
    ensures sound(TakePermitStep(s, f, t))
  {
    StaysSound(sound, s, TakePermit(f, t));
  }

  /** The queue once a fan-out without a share has ended. */
  function Ended(s: State, f: FanId): State
    requires f in s.fans
  {
    if s.fans[f].carried.Some? then
      s.(tickets := s.tickets - {s.fans[f].carried.value}, admission := s.admission + 1, fans := s.fans - {f})
    else s.(fans := s.fans - {f})
  }

  lemma EndedIsStep(s: State, f: FanId)
    requires f in s.fans && ByFan(f) !in s.shares
    requires s.fans[f].carried.Some? ==> s.fans[f].carried.value in s.tickets
    ensures EndFanStep(s, f) == Ended(s, f)
  {
    assert FreeShare(s, ByFan(f)) == s;
    var fan := s.fans[f];
    if fan.carried.Some? {
      assert FreeTicket(s, fan.carried.value)
          == s.(tickets := s.tickets - {fan.carried.value}, admission := s.admission + 1);
    }
  }

  lemma EndedCounts(s: State, f: FanId)
    requires f in s.fans && (s.fans[f].carried.Some? ==> s.fans[f].carried.value in s.tickets)
    ensures Ended(s, f).admission + |Ended(s, f).tickets| == s.admission + |s.tickets|
  {
    if s.fans[f].carried.Some? {
      SizeRemove(s.tickets, s.fans[f].carried.value);
    }
  }

  lemma SoundEnd(sound: State -> bool, s: State, f: FanId)
    requires IsSound(sound) && sound(s) && f in s.fans && ByFan(f) !in s.shares
    ensures sound(Ended(s, f))
    ensures Ended(s, f).admission + |Ended(s, f).tickets| == s.admission + |s.tickets|
  {
    SoundWiring(sound, s);
    EndedIsStep(s, f);
    EndedCounts(s, f);
    StaysSound(sound, s, EndFan(f));
  }

  lemma SoundReceive(sound: State -> bool, s: State)
    requires IsSound(sound) && sound(s) && s.channel != []
    ensures At(s, s.channel[0], Queued)
    ensures sound(Moved(s, s.channel[0], InHand).(channel := s.channel[1..]))
  {
    var now := Inv(s);
    assert IsAt(s.tickets, s.channel[0], Queued);
    StaysSound(sound, s, Receive);
  }

  lemma SoundTurn(sound: State -> bool, s: State, t: TicketId)
    requires IsSound(sound) && sound(s) && DeliveryAt(s, t, Waiting) && t in SlotSeekers(s)
    ensures ByTicket(t) in s.shares && sound(TakeSlot(Moved(s, t, Sendable), t))
  {
    SoundWiring(sound, s);
    StaysSound(sound, s, LaneTurn(t));
  }

  lemma SoundRequest(sound: State -> bool, s: State, t: TicketId)
    requires IsSound(sound) && sound(s)
    requires DeliveryAt(s, t, InHand) && t in s.slots && t !in s.sending && s.requestSlots > 0
    ensures sound(s.(sending := s.sending + {t}, requestSlots := s.requestSlots - 1))
  {
    StaysSound(sound, s, Request(t));
  }

  lemma SoundManual(sound: State -> bool, s: State)
    requires IsSound(sound) && sound(s)
    ensures s.requestSlots > 0 ==> sound(s.(manual := s.manual + 1, requestSlots := s.requestSlots - 1))
    ensures s.manual > 0 ==> sound(s.(manual := s.manual - 1, requestSlots := s.requestSlots + 1))
  {
    if s.requestSlots > 0 {
      StaysSound(sound, s, ManualBegin);
    }
    if s.manual > 0 {
      StaysSound(sound, s, ManualEnd);
    }
  }

  lemma SoundWork(sound: State -> bool, s: State, t: TicketId)
    requires IsSound(sound) && sound(s) && DeliveryAt(s, t, InHand) && t !in s.slots
    ensures ByTicket(t) in s.shares && sound(WorkStep(s, t))
  {
    SoundWiring(sound, s);
    StaysSound(sound, s, Work(t));
  }

  lemma SoundAttempt(sound: State -> bool, s: State, t: TicketId)
    requires IsSound(sound) && sound(s) && DeliveryAt(s, t, InHand) && t in s.slots
    ensures sound(LeaveLaneStep(FreeRequest(s, t), t))
  {
    if t in s.sending {
      StaysSound(sound, s, EndRequest(t));
    }
    StaysSound(sound, FreeRequest(s, t), LeaveLane(t));
  }

  lemma SoundOutcome(sound: State -> bool, s: State, t: TicketId)
    requires IsSound(sound) && sound(s) && DeliveryAt(s, t, Settling)
    ensures sound(Moved(s, t, Backoff)) && sound(Resolve(s, t))
  {
    StaysSound(sound, s, Retry(t));
    StaysSound(sound, s, Conclude(t));
  }

  /** Each method is proved equal to its step of the queue and keeps the invariant, so the laws
      about runs hold of every sequence of calls. */
  class Service {
    const limits: Limits
    var admission: int
    var tickets: map<TicketId, Ticket>
    var channel: seq<TicketId>
    var fans: map<FanId, Fan>
    var lanes: map<string, LaneId>
    var laneTable: map<LaneId, Lane>
    var webhooks: map<LaneId, string>
    var shares: map<Owner, LaneId>
    var slots: map<TicketId, LaneId>
    var sending: set<TicketId>
    var manual: nat
    var requestSlots: int
    var dropped: nat
    ghost const sound: State -> bool

    function Now(): State
      reads this
    {
      State(limits, admission, tickets, channel, fans, lanes, laneTable, webhooks, shares, slots, sending, manual,
            requestSlots, dropped)
    }

    ghost predicate Valid()
      reads this
    {
      IsSound(sound) && sound(Now())
    }

    constructor (wanted: Limits)
      ensures Valid() && Now() == Start(Normalized(wanted))
    {
      limits := Normalized(wanted);
      admission, requestSlots := Normalized(wanted).queueCapacity, Normalized(wanted).maxConcurrent;
      tickets, channel, fans, lanes, laneTable, webhooks := map[], [], map[], map[], map[], map[];
      shares, slots, sending, manual, dropped := map[], map[], {}, 0, 0;
      sound := s => Inv(s);
      new;
      SoundStart(sound, limits);
    }

    method ReleaseShare(who: Owner)
      modifies this`shares, this`laneTable
      ensures Now() == FreeShare(old(Now()), who)
    {
      if who in shares && shares[who] in laneTable {
        var l := shares[who];
        laneTable := laneTable[l := laneTable[l].(share := laneTable[l].share + 1)];
        shares := shares - {who};
      }
    }

    method ReleaseSlot(t: TicketId)
      modifies this`slots, this`laneTable
      ensures Now() == FreeSlot(old(Now()), t)
    {
      if t in slots && slots[t] in laneTable {
        var l := slots[t];
        laneTable := laneTable[l := laneTable[l].(slots := laneTable[l].slots + 1)];
        slots := slots - {t};
      }
    }

    method ReleaseRequest(t: TicketId)
      modifies this`sending, this`requestSlots
      ensures Now() == FreeRequest(old(Now()), t)
    {
      if t in sending {
        sending := sending - {t};
        requestSlots := requestSlots + 1;
      }
    }

    /** Dropping an item returns its request slot, lane slot, lane share and permit. */
    method DropItem(t: TicketId)
      modifies this
      ensures Now() == Resolve(old(Now()), t)
    {
      ReleaseRequest(t);
      ReleaseSlot(t);
      ReleaseShare(ByTicket(t));
      if t in tickets {
        tickets := tickets - {t};
        admission := admission + 1;
      }
    }

    /** `try_send`: a full channel drops the item. */
    method Put(t: TicketId)
      requires t in tickets
      modifies this
      ensures |old(channel)| < limits.queueCapacity ==>
                Now() == old(Now()).(tickets := old(tickets)[t := old(tickets[t]).(place := Queued)],
                                     channel := old(channel) + [t])
      ensures |old(channel)| >= limits.queueCapacity ==> Now() == Drop(Resolve(old(Now()), t))
    {
      if |channel| < limits.queueCapacity {
        tickets := tickets[t := tickets[t].(place := Queued)];
        channel := channel + [t];
      } else {
        DropItem(t);
        dropped := dropped + 1;
      }
    }

    /** Puts an item that holds a permit into the channel. There is always room. */
    method Enqueue(t: TicketId)
      requires Valid() && (At(Now(), t, Sendable) || DeliveryAt(Now(), t, Backoff))
      modifies this
      ensures Valid() && |old(channel)| < limits.queueCapacity
      ensures Now() == old(Now()).(tickets := old(tickets)[t := old(tickets[t]).(place := Queued)],
                                   channel := old(channel) + [t])
    {
      SoundSend(sound, Now(), t);
      Put(t);
    }

    /** One permit for an event, if there is one. */
    method TryAdmit(t: TicketId) returns (admitted: bool)
      requires t !in tickets
      modifies this`admission, this`tickets, this`dropped
      ensures admitted <==> old(admission) > 0
      ensures !admitted ==> Now() == Drop(old(Now()))
      ensures admitted ==>
                Now() == old(Now()).(admission := old(admission) - 1, tickets := old(tickets)[t := Event(Sendable)])
    {
      admitted := admission > 0;
      if admitted {
        admission := admission - 1;
        tickets := tickets[t := Event(Sendable)];
      } else {
        dropped := dropped + 1;
      }
    }

    /** Admits an event, or drops it when every permit is in use. */
    method QueueEvent(t: TicketId) returns (admitted: bool)
      requires Valid() && t !in tickets
      modifies this
      ensures Valid()
      ensures admitted <==> old(admission) > 0
      ensures !admitted ==> Now() == Drop(old(Now()))
      ensures admitted ==>
                Now() == old(Now()).(admission := old(admission) - 1, tickets := old(tickets)[t := Event(Queued)],
                                     channel := old(channel) + [t])
    {
      SoundAdmission(sound, Now(), t);
      admitted := TryAdmit(t);
      if admitted {
        Enqueue(t);
      }
    }

    /** Forgets the lanes with no share in use once the map is large. */
    method Prune(webhook: string)
      modifies this`lanes
      ensures lanes == Pruned(old(Now()), webhook)
    {
      if |lanes| >= LANE_PRUNE_THRESHOLD && webhook !in lanes {
        ghost var before := Now();
        var kept: map<string, LaneId> := map[];
        var todo := lanes.Keys;
        while todo != {}
          invariant lanes == before.lanes && todo <= lanes.Keys
          invariant kept == map w | w in lanes && w !in todo
                                    && LaneAt(before, lanes[w]).share < limits.perWebhookQueue :: lanes[w]
          decreases todo
        {
          var w :| w in todo;
          if LaneAt(Now(), lanes[w]).share < limits.perWebhookQueue {
            kept := kept[w := lanes[w]];
          }
          todo := todo - {w};
        }
        lanes := kept;
      }
    }

    /** One unit of the share of the webhook's lane, if it has any left. */
    method LaneShare(f: FanId, id: LaneId) returns (taken: bool)
      requires Valid() && f in fans && fans[f].remaining != [] && ByFan(f) !in shares && id !in laneTable
      modifies this
      ensures Valid()
      ensures Now() == TakeShareStep(old(Now()), f, id)
      ensures taken <==> ByFan(f) in shares
    {
      ghost var before := Now();
      var webhook := fans[f].remaining[0];
      Prune(webhook);
      if webhook !in lanes {
        lanes := lanes[webhook := id];
        laneTable := laneTable[id := Lane(limits.perWebhookConcurrency, limits.perWebhookQueue)];
        webhooks := webhooks[id := webhook];
      }
      assert Now() == WithLane(before, webhook, id);
      taken := TakeFrom(f, lanes[webhook]);
      SoundShare(sound, before, f, id);
    }

    method TakeFrom(f: FanId, l: LaneId) returns (taken: bool)
      requires f in fans && fans[f].remaining != [] && ByFan(f) !in shares
      modifies this`shares, this`laneTable, this`fans, this`dropped
      ensures Now() == TryShare(old(Now()), f, l)
      ensures taken <==> ByFan(f) in shares
    {
      var lane := LaneAt(Now(), l);
      taken := lane.share > 0;
      if taken {
        shares := shares[ByFan(f) := l];
        laneTable := laneTable[l := lane.(share := lane.share - 1)];
      } else {
        dropped := dropped + 1;
        fans := fans[f := fans[f].(remaining := fans[f].remaining[1..])];
      }
    }

    /** The carried permit if the fan-out still has it, else a new one, else a drop. */
    method Admit(f: FanId, id: TicketId) returns (r: Option<TicketId>)
      requires Valid() && f in fans && fans[f].remaining != [] && ByFan(f) in shares && id !in tickets
      modifies this
      ensures Valid()
      ensures Now() == TakePermitStep(old(Now()), f, id)
      ensures r.None? <==> old(fans[f].carried.None? && admission <= 0)
      ensures r.Some? ==> At(Now(), r.value, Sendable)
    {
      SoundPermit(sound, Now(), f, id);
      r := GivePermit(f, id);
    }

    method GivePermit(f: FanId, id: TicketId) returns (r: Option<TicketId>)
      requires f in fans && fans[f].remaining != [] && ByFan(f) in shares
      modifies this
      ensures Now() == TakePermitStep(old(Now()), f, id)
      ensures r.None? <==> old(fans[f].carried.None? && admission <= 0)
      ensures r.Some? ==> At(Now(), r.value, Sendable)
    {
      var fan := fans[f];
      var t := id;
      r := None;
      if fan.carried.Some? {
        t := fan.carried.value;
      } else if admission > 0 {
        admission := admission - 1;
      } else {
        ReleaseShare(ByFan(f));
        dropped := dropped + 1;
        fans := fans[f := fan.(remaining := fan.remaining[1..])];
        return;
      }
      tickets := tickets[t := Delivery(fan.remaining[0], Sendable)];
      shares := (shares - {ByFan(f)})[ByTicket(t) := shares[ByFan(f)]];
      fans := fans[f := Fan(None, fan.remaining[1..])];
      r := Some(t);
    }

    /** A consumer takes the next item. */
    method Receive() returns (t: TicketId)
      requires Valid() && channel != []
      modifies this
      ensures Valid() && t == old(channel[0]) && At(Now(), t, InHand)
      ensures Now() == Moved(old(Now()), t, InHand).(channel := old(channel)[1..])
    {
      SoundReceive(sound, Now());
      t := channel[0];
      tickets := tickets[t := tickets[t].(place := InHand)];
      channel := channel[1..];
    }

    /** A waiting delivery is granted its lane's next free slot, and goes back to the channel. */
    method LaneTurn(t: TicketId)
      requires Valid() && DeliveryAt(Now(), t, Waiting) && t in SlotSeekers(Now())
      modifies this
      ensures Valid() && ByTicket(t) in old(shares)
      ensures Now() == TakeSlot(Moved(old(Now()), t, Sendable), t)
    {
      SoundTurn(sound, Now(), t);
      TakeTurn(t);
    }

    method TakeTurn(t: TicketId)
      requires t in tickets && ByTicket(t) in shares
      modifies this`tickets, this`slots, this`laneTable
      ensures Now() == TakeSlot(Moved(old(Now()), t, Sendable), t)
    {
      var l := shares[ByTicket(t)];
      var lane := LaneAt(Now(), l);
      slots := slots[t := l];
      laneTable := laneTable[l := lane.(slots := lane.slots - 1)];
      tickets := tickets[t := tickets[t].(place := Sendable)];
    }

    /** Takes a request slot and sends. */
    method Request(t: TicketId)
      requires Valid() && DeliveryAt(Now(), t, InHand) && t in slots && t !in sending && requestSlots > 0
      modifies this`sending, this`requestSlots
      ensures Valid()
      ensures Now() == old(Now()).(sending := old(sending) + {t}, requestSlots := old(requestSlots) - 1)
    {
      SoundRequest(sound, Now(), t);
      sending := sending + {t};
      requestSlots := requestSlots - 1;
    }

    /** A manual retry takes a request slot and no lane's. */
    method BeginManual()
      requires Valid() && requestSlots > 0
      modifies this`manual, this`requestSlots
      ensures Valid() && Now() == old(Now()).(manual := old(manual) + 1, requestSlots := old(requestSlots) - 1)
    {
      SoundManual(sound, Now());
      manual, requestSlots := manual + 1, requestSlots - 1;
    }

    method EndManual()
      requires Valid() && manual > 0
      modifies this`manual, this`requestSlots
      ensures Valid() && Now() == old(Now()).(manual := old(manual) - 1, requestSlots := old(requestSlots) + 1)
    {
      SoundManual(sound, Now());
      manual, requestSlots := manual - 1, requestSlots + 1;
    }

    /** A delivery in hand asks its lane for a slot, or waits for one. */
    method Work(t: TicketId) returns (granted: bool)
      requires Valid() && DeliveryAt(Now(), t, InHand) && t !in slots
      modifies this
      ensures Valid()
      ensures Now() == WorkStep(old(Now()), t)
      ensures granted <==> t in slots
    {
      SoundWork(sound, Now(), t);
      var l := shares[ByTicket(t)];
      var lane := LaneAt(Now(), l);
      granted := lane.slots > 0;
      if granted {
        slots := slots[t := l];
        laneTable := laneTable[l := lane.(slots := lane.slots - 1)];
      } else {
        tickets := tickets[t := tickets[t].(place := Waiting)];
      }
    }

    /** After an attempt: the lane's slot is freed before the outcome is written, and so before
        any backoff sleep. */
    method EndAttempt(t: TicketId)
      requires Valid() && DeliveryAt(Now(), t, InHand) && t in slots
      modifies this
      ensures Valid()
      ensures Now() == LeaveLaneStep(FreeRequest(old(Now()), t), t)
    {
      SoundAttempt(sound, Now(), t);
      ReleaseRequest(t);
      ReleaseSlot(t);
      tickets := tickets[t := tickets[t].(place := Settling)];
    }

    /** Once the outcome is written: sleep and try again, or let go of everything. */
    method Settle(t: TicketId, retry: bool)
      requires Valid() && DeliveryAt(Now(), t, Settling)
      modifies this
      ensures Valid()
      ensures Now() == if retry then Moved(old(Now()), t, Backoff) else Resolve(old(Now()), t)
    {
      SoundOutcome(sound, Now(), t);
      if retry {
        tickets := tickets[t := tickets[t].(place := Backoff)];
      } else {
        DropItem(t);
      }
    }

    /** Queues the delivery of the fan-out's next webhook, or counts it as dropped. */
    method Offer(f: FanId) returns (queued: nat)
      requires Valid() && f in fans && fans[f].remaining != [] && ByFan(f) !in shares
      modifies this
      ensures Valid() && ByFan(f) !in shares && f in fans
      ensures queued + dropped == old(dropped) + 1 && |channel| == |old(channel)| + queued
      ensures admission + |tickets| == old(admission + |tickets|)
      ensures fans == old(fans)[f := Fan(fans[f].carried, old(fans[f].remaining[1..]))]
    {
      var id := Unused(laneTable.Keys);
      ghost var before, webhook := Now(), fans[f].remaining[0];
      SoundWiring(sound, before);
      LaneFacts(before, webhook, id);
      ShareFacts(WithLane(before, webhook, id), f, WithLane(before, webhook, id).lanes[webhook]);
      var taken := LaneShare(f, id);
      queued := 0;
      if taken {
        queued := Hand(f);
      }
    }

    method Hand(f: FanId) returns (queued: nat)
      requires Valid() && f in fans && fans[f].remaining != [] && ByFan(f) in shares
      modifies this
      ensures Valid() && ByFan(f) !in shares
      ensures queued + dropped == old(dropped) + 1 && |channel| == |old(channel)| + queued
      ensures admission + |tickets| == old(admission + |tickets|)
      ensures fans == old(fans)[f := Fan(None, old(fans[f].remaining[1..]))]
    {
      var item := PermitFor(f);
      if item.None? {
        return 0;
      }
      SizeAdd(tickets, item.value, tickets[item.value].(place := Queued));
      Enqueue(item.value);
      queued := 1;
    }

    /** A delivery with a permit for the fan-out's next webhook, if a permit is to be had. */
    method PermitFor(f: FanId) returns (item: Option<TicketId>)
      requires Valid() && f in fans && fans[f].remaining != [] && ByFan(f) in shares
      modifies this
      ensures Valid() && ByFan(f) !in shares && (item.Some? ==> At(Now(), item.value, Sendable))
      ensures dropped == old(dropped) + (if item.None? then 1 else 0) && channel == old(channel)
      ensures admission + |tickets| == old(admission + |tickets|)
      ensures fans == old(fans)[f := Fan(None, old(fans[f].remaining[1..]))]
    {
      var id := Unused(tickets.Keys);
      SoundWiring(sound, Now());
      PermitFacts(Now(), f, id);
      item := Admit(f, id);
    }

    /** Queues one delivery for each matching webhook. Every one is queued or counted as
        dropped, no permit is made or lost, and one still carried at the end goes back. */
    method FanOut(f: FanId, carried: Option<TicketId>, matching: seq<string>) returns (queued: nat)
      requires Valid() && CanBegin(Now(), f, carried)
      modifies this
      ensures Valid() && fans == old(fans)
      ensures queued + dropped == old(dropped) + |matching| && |channel| == |old(channel)| + queued
      ensures admission + |tickets| == old(admission + |tickets|)
    {
      ghost var before := fans;
      Begin(f, carried, matching);
      queued := OfferAll(f);
      AddedThenRemoved(before, f, fans);
      End(f);
    }

    method Begin(f: FanId, carried: Option<TicketId>, matching: seq<string>)
      requires Valid() && CanBegin(Now(), f, carried)
      modifies this`fans
      ensures Valid() && ByFan(f) !in shares && fans == old(fans)[f := Fan(carried, matching)]
    {
      SoundWiring(sound, Now());
      SoundBegin(sound, Now(), f, carried, matching);
      fans := fans[f := Fan(carried, matching)];
    }

    method OfferAll(f: FanId) returns (queued: nat)
      requires Valid() && f in fans && ByFan(f) !in shares
      modifies this
      ensures Valid() && ByFan(f) !in shares && f in fans && fans == old(fans)[f := Fan(fans[f].carried, [])]
      ensures queued + dropped == old(dropped) + |old(fans[f].remaining)| && |channel| == |old(channel)| + queued
      ensures admission + |tickets| == old(admission + |tickets|)
    {
      ghost var before, matching := fans, fans[f].remaining;
      var count := |fans[f].remaining|;
      queued := 0;
      for i := 0 to count
        invariant Valid() && ByFan(f) !in shares && f in fans
        invariant fans == before[f := Fan(fans[f].carried, matching[i..])]
        invariant queued + dropped == old(dropped) + i && |channel| == |old(channel)| + queued
        invariant admission + |tickets| == old(admission + |tickets|)
      {
        var more := Offer(f);
        queued := queued + more;
      }
    }

    /** Ends a fan-out; a permit it still carries goes back. */
    method End(f: FanId)
      requires Valid() && f in fans && ByFan(f) !in shares
      modifies this`tickets, this`admission, this`fans
      ensures Valid() && Now() == Ended(old(Now()), f)
      ensures admission + |tickets| == old(admission + |tickets|)
    {
      SoundEnd(sound, Now(), f);
      Forget(f);
    }

    method Forget(f: FanId)
      requires f in fans
      modifies this`tickets, this`admission, this`fans
      ensures Now() == Ended(old(Now()), f)
    {
      var carried := fans[f].carried;
      if carried.Some? {
        tickets := tickets - {carried.value};
        admission := admission + 1;
      }
      fans := fans - {f};
    }
  }
}
