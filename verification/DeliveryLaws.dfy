/** What the delivery queue keeps under every interleaving. */
module DeliveryLaws {
  import opened Wrappers
  import opened DeliveryQueue

  // ---------------------------------------------------------------------------
  // Counting permits
  // ---------------------------------------------------------------------------

  /** How many entries of `m` name lane `l`. */
  ghost function Count<K>(m: map<K, LaneId>, l: LaneId): nat {
    |set k | k in m && m[k] == l|
  }

  lemma CountAdd<K>(m: map<K, LaneId>, k: K, v: LaneId, l: LaneId)
    requires k !in m
    ensures Count(m[k := v], l) == Count(m, l) + if v == l then 1 else 0
  {
    var n := m[k := v];
    var before := set x | x in m && m[x] == l;
    var after := set x | x in n && n[x] == l;
    assert after == if v == l then before + {k} else before;
  }

  lemma CountRemove<K>(m: map<K, LaneId>, k: K, l: LaneId)
    requires k in m
    ensures Count(m - {k}, l) == Count(m, l) - if m[k] == l then 1 else 0
  {
    var n := m - {k};
    var before := set x | x in m && m[x] == l;
    var after := set x | x in n && n[x] == l;
    assert after == if m[k] == l then before - {k} else before;
  }

  lemma CountPositive<K>(m: map<K, LaneId>, k: K)
    requires k in m
    ensures Count(m, m[k]) >= 1
  {
    var on := set x | x in m && m[x] == m[k];
    assert on == (on - {k}) + {k};
  }

  lemma SizeRemove<K, V>(m: map<K, V>, k: K)
    requires k in m
    ensures |m - {k}| == |m| - 1
  {
    assert (m - {k}).Keys == m.Keys - {k};
    assert |m.Keys - {k}| == |m.Keys| - 1;
  }

  lemma SizeAdd<K, V>(m: map<K, V>, k: K, v: V)
    ensures |m[k := v]| == |m| + if k in m then 0 else 1
  {
    assert m[k := v].Keys == m.Keys + {k};
  }

  lemma {:induction false} SubsetSize<T>(a: set<T>, b: set<T>)
    requires a <= b
    ensures |a| <= |b|
  {
    assert b == a + (b - a);
  }

  // ---------------------------------------------------------------------------
  // The invariant, one part for each group of fields
  // ---------------------------------------------------------------------------

  type Tickets = map<TicketId, Ticket>

  /** Free permits and tickets in use make up the capacity. */
  ghost predicate PermitsOk(admission: int, tickets: Tickets, limits: Limits) {
    admission >= 0 && admission + |tickets| == limits.queueCapacity
  }

  ghost predicate IsAt(tickets: Tickets, t: TicketId, place: Place) {
    t in tickets && tickets[t].place == place
  }

  ghost predicate ChannelOk(channel: seq<TicketId>, tickets: Tickets) {
    && (forall i :: 0 <= i < |channel| ==> IsAt(tickets, channel[i], Queued))
    && (forall i, j :: 0 <= i < j < |channel| ==> channel[i] != channel[j])
  }

  ghost predicate LanesOk(lanes: map<string, LaneId>, webhooks: map<LaneId, string>) {
    forall w :: w in lanes ==> lanes[w] in webhooks && webhooks[lanes[w]] == w
  }

  ghost predicate ShareCountOk(table: map<LaneId, Lane>, shares: map<Owner, LaneId>, limits: Limits) {
    forall l :: l in table ==> table[l].share >= 0 && table[l].share + Count(shares, l) == limits.perWebhookQueue
  }

  ghost predicate SlotCountOk(table: map<LaneId, Lane>, slots: map<TicketId, LaneId>, limits: Limits) {
    forall l :: l in table ==> table[l].slots >= 0 && table[l].slots + Count(slots, l) == limits.perWebhookConcurrency
  }

  /** A lane with a share in use is still its webhook's lane in the map. */
  ghost predicate Current(l: LaneId, webhooks: map<LaneId, string>, lanes: map<string, LaneId>) {
    l in webhooks && webhooks[l] in lanes && lanes[webhooks[l]] == l
  }

  ghost predicate LiveLanesOk(shares: map<Owner, LaneId>, webhooks: map<LaneId, string>, lanes: map<string, LaneId>) {
    forall o :: o in shares ==> Current(shares[o], webhooks, lanes)
  }

  /** A fan-out holds a share for the webhook it is at. */
  ghost predicate FanSharesOk(shares: map<Owner, LaneId>, webhooks: map<LaneId, string>, fans: map<FanId, Fan>) {
    forall f :: ByFan(f) in shares ==>
                  && f in fans && fans[f].remaining != []
                  && shares[ByFan(f)] in webhooks && webhooks[shares[ByFan(f)]] == fans[f].remaining[0]
  }

  /** Deliveries, and they only, hold a share of their webhook's lane. */
  ghost predicate TicketSharesOk(shares: map<Owner, LaneId>, webhooks: map<LaneId, string>, tickets: Tickets) {
    && (forall t :: ByTicket(t) in shares ==>
          && t in tickets && tickets[t].Delivery?
          && shares[ByTicket(t)] in webhooks && webhooks[shares[ByTicket(t)]] == tickets[t].webhook)
    && (forall t :: t in tickets && tickets[t].Delivery? ==> ByTicket(t) in shares)
  }

  /** Whoever holds a slot of a lane holds a share of it, and is on its way to its request. */
  ghost predicate SlotHoldersOk(slots: map<TicketId, LaneId>, shares: map<Owner, LaneId>, tickets: Tickets) {
    forall t :: t in slots ==>
                  && ByTicket(t) in shares && shares[ByTicket(t)] == slots[t]
                  && (IsAt(tickets, t, Sendable) || IsAt(tickets, t, Queued) || IsAt(tickets, t, InHand))
  }

  ghost predicate SendersOk(sending: set<TicketId>, slots: map<TicketId, LaneId>, tickets: Tickets) {
    forall t :: t in sending ==> t in slots && IsAt(tickets, t, InHand)
  }

  ghost predicate RequestsOk(sending: set<TicketId>, manual: nat, requestSlots: int, limits: Limits) {
    requestSlots >= 0 && requestSlots + |sending| + manual == limits.maxConcurrent
  }

  /** A fan-out's carried ticket is an event in hand, and no other fan-out's. */
  ghost predicate FansOk(fans: map<FanId, Fan>, tickets: Tickets) {
    && (forall f :: f in fans && fans[f].carried.Some? ==>
          IsAt(tickets, fans[f].carried.value, InHand) && tickets[fans[f].carried.value].Event?)
    && (forall f, g :: f in fans && g in fans && f != g && fans[f].carried.Some? ==>
          fans[f].carried != fans[g].carried)
  }

  ghost predicate Inv(s: State) {
    && PermitsOk(s.admission, s.tickets, s.limits)
    && ChannelOk(s.channel, s.tickets)
    && LanesOk(s.lanes, s.webhooks)
    && s.laneTable.Keys == s.webhooks.Keys
    && ShareCountOk(s.laneTable, s.shares, s.limits)
    && SlotCountOk(s.laneTable, s.slots, s.limits)
    && LiveLanesOk(s.shares, s.webhooks, s.lanes)
    && FanSharesOk(s.shares, s.webhooks, s.fans)
    && TicketSharesOk(s.shares, s.webhooks, s.tickets)
    && SlotHoldersOk(s.slots, s.shares, s.tickets)
    && SendersOk(s.sending, s.slots, s.tickets)
    && RequestsOk(s.sending, s.manual, s.requestSlots, s.limits)
    && FansOk(s.fans, s.tickets)
    && s.limits.perWebhookQueue >= 1 && s.limits.perWebhookConcurrency >= 1
  }

  // ---------------------------------------------------------------------------
  // Room in the channel
  // ---------------------------------------------------------------------------

  lemma {:induction false} DistinctSize(xs: seq<TicketId>, ids: set<TicketId>)
    requires forall i, j :: 0 <= i < j < |xs| ==> xs[i] != xs[j]
    requires forall i :: 0 <= i < |xs| ==> xs[i] in ids
    ensures |xs| <= |ids|
  {
    if xs != [] {
      DistinctSize(xs[1..], ids - {xs[0]});
    }
  }

  /** An item about to be sent is not in the channel, and holds one of as many permits as
      the channel has places. */
  lemma RoomToSend(s: State, t: TicketId)
    requires Inv(s) && Enabled(s, Send(t))
    ensures |s.channel| < s.limits.queueCapacity
  {
    forall i | 0 <= i < |s.channel|
      ensures s.channel[i] in s.tickets.Keys - {t}
    {
      assert IsAt(s.tickets, s.channel[i], Queued);
    }
    DistinctSize(s.channel, s.tickets.Keys - {t});
  }

  // ---------------------------------------------------------------------------
  // Every step keeps the invariant
  // ---------------------------------------------------------------------------

  lemma TicketMoved(s: State, t: TicketId, place: Place)
    requires t in s.tickets
    requires TicketSharesOk(s.shares, s.webhooks, s.tickets) && SlotHoldersOk(s.slots, s.shares, s.tickets)
    requires t in s.slots ==> place == Sendable || place == Queued || place == InHand
    ensures var tickets := s.tickets[t := s.tickets[t].(place := place)];
            TicketSharesOk(s.shares, s.webhooks, tickets) && SlotHoldersOk(s.slots, s.shares, tickets)
  {
  }

  /** A ticket changes place; `channel` is the channel afterwards. */
  lemma KeepsOnMove(s: State, t: TicketId, place: Place, channel: seq<TicketId>)
    requires Inv(s) && t in s.tickets && t !in s.sending
    requires forall f :: f in s.fans ==> s.fans[f].carried != Some(t)
    requires t in s.slots ==> place == Sendable || place == Queued || place == InHand
    requires ChannelOk(channel, s.tickets[t := s.tickets[t].(place := place)])
    ensures Inv(Moved(s, t, place).(channel := channel))
  {
    TicketMoved(s, t, place);
    SizeAdd(s.tickets, t, s.tickets[t].(place := place));
  }

  lemma KeepsOnRequestEnd(s: State, t: TicketId)
    requires Inv(s)
    ensures Inv(FreeRequest(s, t))
  {
  }

  lemma SlotGone(s: State, t: TicketId)
    requires t in s.slots && s.slots[t] in s.laneTable && t !in s.sending
    requires ShareCountOk(s.laneTable, s.shares, s.limits) && SlotCountOk(s.laneTable, s.slots, s.limits)
    requires SlotHoldersOk(s.slots, s.shares, s.tickets) && SendersOk(s.sending, s.slots, s.tickets)
    ensures var n := FreeSlot(s, t);
            && ShareCountOk(n.laneTable, s.shares, s.limits) && SlotCountOk(n.laneTable, n.slots, s.limits)
            && SlotHoldersOk(n.slots, s.shares, s.tickets) && SendersOk(s.sending, n.slots, s.tickets)
            && n.laneTable.Keys == s.laneTable.Keys
  {
    forall l | l in s.laneTable
      ensures Count(s.slots - {t}, l) == Count(s.slots, l) - if s.slots[t] == l then 1 else 0
    {
      CountRemove(s.slots, t, l);
    }
  }

  lemma KeepsOnSlotEnd(s: State, t: TicketId)
    requires Inv(s) && t !in s.sending
    ensures Inv(FreeSlot(s, t))
  {
    if t in s.slots && s.slots[t] in s.laneTable {
      SlotGone(s, t);
    }
  }

  lemma EventAdded(s: State, t: TicketId)
    requires t !in s.tickets && ChannelOk(s.channel, s.tickets) && SendersOk(s.sending, s.slots, s.tickets)
    requires TicketSharesOk(s.shares, s.webhooks, s.tickets) && SlotHoldersOk(s.slots, s.shares, s.tickets)
    ensures var tickets := s.tickets[t := Event(Sendable)];
            && ChannelOk(s.channel, tickets) && SendersOk(s.sending, s.slots, tickets)
            && TicketSharesOk(s.shares, s.webhooks, tickets) && SlotHoldersOk(s.slots, s.shares, tickets)
  {
  }

  lemma KeepsOnAdmit(s: State, t: TicketId)
    requires Inv(s) && t !in s.tickets && s.admission > 0
    ensures Inv(s.(admission := s.admission - 1, tickets := s.tickets[t := Event(Sendable)]))
  {
    SizeAdd(s.tickets, t, Event(Sendable));
    EventAdded(s, t);
  }

  lemma TicketGone(s: State, t: TicketId)
    requires PermitsOk(s.admission, s.tickets, s.limits) && ChannelOk(s.channel, s.tickets)
    requires SendersOk(s.sending, s.slots, s.tickets) && FansOk(s.fans, s.tickets)
    requires t in s.tickets && s.tickets[t].place != Queued && t !in s.slots
    ensures ChannelOk(s.channel, s.tickets - {t})
    ensures SendersOk(s.sending, s.slots, s.tickets - {t})
    ensures s.tickets[t].Delivery? ==> FansOk(s.fans, s.tickets - {t})
    ensures PermitsOk(s.admission + 1, s.tickets - {t}, s.limits)
  {
    SizeRemove(s.tickets, t);
  }

  lemma ShareGone(s: State, t: TicketId)
    requires TicketSharesOk(s.shares, s.webhooks, s.tickets) && FanSharesOk(s.shares, s.webhooks, s.fans)
    requires LiveLanesOk(s.shares, s.webhooks, s.lanes) && SlotHoldersOk(s.slots, s.shares, s.tickets)
    requires t in s.tickets && t !in s.slots
    ensures TicketSharesOk(s.shares - {ByTicket(t)}, s.webhooks, s.tickets - {t})
    ensures FanSharesOk(s.shares - {ByTicket(t)}, s.webhooks, s.fans)
    ensures LiveLanesOk(s.shares - {ByTicket(t)}, s.webhooks, s.lanes)
    ensures SlotHoldersOk(s.slots, s.shares - {ByTicket(t)}, s.tickets - {t})
  {
  }

  lemma LaneOfTicket(s: State, t: TicketId)
    requires Inv(s) && t in s.tickets && s.tickets[t].Delivery?
    ensures ByTicket(t) in s.shares && s.shares[ByTicket(t)] in s.laneTable
  {
    assert Current(s.shares[ByTicket(t)], s.webhooks, s.lanes);
  }

  lemma LaneCountsGone(s: State, who: Owner)
    requires ShareCountOk(s.laneTable, s.shares, s.limits) && SlotCountOk(s.laneTable, s.slots, s.limits)
    requires who in s.shares && s.shares[who] in s.laneTable
    ensures ShareCountOk(FreeShare(s, who).laneTable, s.shares - {who}, s.limits)
    ensures SlotCountOk(FreeShare(s, who).laneTable, s.slots, s.limits)
    ensures FreeShare(s, who).laneTable.Keys == s.laneTable.Keys
  {
    forall l | l in s.laneTable
      ensures Count(s.shares - {who}, l) == Count(s.shares, l) - if s.shares[who] == l then 1 else 0
    {
      CountRemove(s.shares, who, l);
    }
  }

  lemma FanShareGone(s: State, f: FanId)
    requires LiveLanesOk(s.shares, s.webhooks, s.lanes) && FanSharesOk(s.shares, s.webhooks, s.fans)
    requires TicketSharesOk(s.shares, s.webhooks, s.tickets) && SlotHoldersOk(s.slots, s.shares, s.tickets)
    ensures LiveLanesOk(s.shares - {ByFan(f)}, s.webhooks, s.lanes)
    ensures FanSharesOk(s.shares - {ByFan(f)}, s.webhooks, s.fans)
    ensures TicketSharesOk(s.shares - {ByFan(f)}, s.webhooks, s.tickets)
    ensures SlotHoldersOk(s.slots, s.shares - {ByFan(f)}, s.tickets)
  {
  }

  lemma KeepsOnFanShareEnd(s: State, f: FanId)
    requires Inv(s)
    ensures Inv(FreeShare(s, ByFan(f)))
  {
    if ByFan(f) in s.shares && s.shares[ByFan(f)] in s.laneTable {
      LaneCountsGone(s, ByFan(f));
      FanShareGone(s, f);
    }
  }

  /** A delivery without a slot leaves, with its share and its permit. */
  lemma KeepsOnLeave(s: State, t: TicketId)
    requires Inv(s) && t in s.tickets && s.tickets[t].Delivery? && s.tickets[t].place != Queued && t !in s.slots
    ensures Inv(FreeTicket(FreeShare(s, ByTicket(t)), t))
  {
    LaneOfTicket(s, t);
    TicketGone(s, t);
    ShareGone(s, t);
    LaneCountsGone(s, ByTicket(t));
  }

  lemma EventGone(s: State, f: FanId)
    requires PermitsOk(s.admission, s.tickets, s.limits) && ChannelOk(s.channel, s.tickets)
    requires SendersOk(s.sending, s.slots, s.tickets) && FansOk(s.fans, s.tickets)
    requires TicketSharesOk(s.shares, s.webhooks, s.tickets) && SlotHoldersOk(s.slots, s.shares, s.tickets)
    requires f in s.fans && s.fans[f].carried.Some?
    ensures var t := s.fans[f].carried.value;
            && t in s.tickets
            && FansOk(s.fans - {f}, s.tickets - {t})
            && TicketSharesOk(s.shares, s.webhooks, s.tickets - {t})
            && SlotHoldersOk(s.slots, s.shares, s.tickets - {t})
            && ChannelOk(s.channel, s.tickets - {t})
            && SendersOk(s.sending, s.slots, s.tickets - {t})
            && PermitsOk(s.admission + 1, s.tickets - {t}, s.limits)
  {
    var t := s.fans[f].carried.value;
    assert IsAt(s.tickets, t, InHand);
    assert ByTicket(t) !in s.shares;
    assert t !in s.slots;
    TicketGone(s, t);
  }

  lemma KeepsOnFanEnd(s: State, f: FanId)
    requires Inv(s) && f in s.fans && ByFan(f) !in s.shares
    ensures Inv((if s.fans[f].carried.Some? then FreeTicket(s, s.fans[f].carried.value) else s).(fans := s.fans - {f}))
  {
    assert FanSharesOk(s.shares, s.webhooks, s.fans - {f});
    if s.fans[f].carried.Some? {
      EventGone(s, f);
    }
  }

  lemma KeepsOnBegin(s: State, f: FanId, carried: Option<TicketId>, webhooks: seq<string>)
    requires Inv(s) && Enabled(s, BeginFan(f, carried, webhooks))
    ensures Inv(s.(fans := s.fans[f := Fan(carried, webhooks)]))
  {
  }

  lemma KeepsOnNext(s: State, f: FanId)
    requires Inv(s) && ByFan(f) !in s.shares
    ensures Inv(Next(s, f))
  {
  }

  /** Pruning keeps every lane that has a share in use. */
  lemma PruningKeepsLiveLanes(s: State, webhook: string)
    requires Inv(s)
    ensures LiveLanesOk(s.shares, s.webhooks, Pruned(s, webhook))
  {
    forall o | o in s.shares
      ensures Current(s.shares[o], s.webhooks, Pruned(s, webhook))
    {
      var l := s.shares[o];
      assert Current(l, s.webhooks, s.lanes);
      CountPositive(s.shares, o);
    }
  }

  lemma NoneOn(s: State, l: LaneId)
    requires Inv(s) && l !in s.laneTable
    ensures Count(s.shares, l) == 0 && Count(s.slots, l) == 0
  {
    forall o | o in s.shares
      ensures s.shares[o] != l
    {
      assert Current(s.shares[o], s.webhooks, s.lanes);
    }
  }

  lemma LaneMade(s: State, webhook: string, kept: map<string, LaneId>, id: LaneId)
    requires id !in s.laneTable && s.laneTable.Keys == s.webhooks.Keys && webhook !in kept
    requires LanesOk(kept, s.webhooks) && LiveLanesOk(s.shares, s.webhooks, kept)
    requires FanSharesOk(s.shares, s.webhooks, s.fans) && TicketSharesOk(s.shares, s.webhooks, s.tickets)
    ensures var webhooks := s.webhooks[id := webhook];
            && LanesOk(kept[webhook := id], webhooks) && LiveLanesOk(s.shares, webhooks, kept[webhook := id])
            && FanSharesOk(s.shares, webhooks, s.fans) && TicketSharesOk(s.shares, webhooks, s.tickets)
  {
    forall o | o in s.shares
      ensures Current(s.shares[o], s.webhooks[id := webhook], kept[webhook := id])
    {
      assert Current(s.shares[o], s.webhooks, kept);
    }
  }

  lemma LaneStartsFull(s: State, id: LaneId)
    requires id !in s.laneTable && Count(s.shares, id) == 0 && Count(s.slots, id) == 0
    requires s.limits.perWebhookQueue >= 1 && s.limits.perWebhookConcurrency >= 1
    requires ShareCountOk(s.laneTable, s.shares, s.limits) && SlotCountOk(s.laneTable, s.slots, s.limits)
    ensures var table := s.laneTable[id := Lane(s.limits.perWebhookConcurrency, s.limits.perWebhookQueue)];
            ShareCountOk(table, s.shares, s.limits) && SlotCountOk(table, s.slots, s.limits)
  {
  }

  lemma KeepsOnPrune(s: State, kept: map<string, LaneId>)
    requires Inv(s) && LanesOk(kept, s.webhooks) && LiveLanesOk(s.shares, s.webhooks, kept)
    ensures Inv(s.(lanes := kept))
  {
  }

  lemma PrunedLanesOk(s: State, webhook: string)
    requires LanesOk(s.lanes, s.webhooks)
    ensures LanesOk(Pruned(s, webhook), s.webhooks)
  {
  }

  /** `s` with a full lane made for `webhook`. */
  ghost function LaneAdded(s: State, webhook: string, id: LaneId): State {
    s.(lanes := s.lanes[webhook := id],
       laneTable := s.laneTable[id := Lane(s.limits.perWebhookConcurrency, s.limits.perWebhookQueue)],
       webhooks := s.webhooks[id := webhook])
  }

  lemma KeepsOnLaneAdded(s: State, webhook: string, id: LaneId)
    requires Inv(s) && id !in s.laneTable && webhook !in s.lanes
    ensures Inv(LaneAdded(s, webhook, id))
  {
    NoneOn(s, id);
    LaneMade(s, webhook, s.lanes, id);
    LaneStartsFull(s, id);
  }

  lemma KeepsOnLane(s: State, webhook: string, id: LaneId)
    requires Inv(s) && id !in s.laneTable
    ensures Inv(WithLane(s, webhook, id))
    ensures var n := WithLane(s, webhook, id);
            && webhook in n.lanes && Current(n.lanes[webhook], n.webhooks, n.lanes)
            && n.webhooks[n.lanes[webhook]] == webhook
  {
    var kept := Pruned(s, webhook);
    PruningKeepsLiveLanes(s, webhook);
    PrunedLanesOk(s, webhook);
    KeepsOnPrune(s, kept);
    if webhook !in kept {
      KeepsOnLaneAdded(s.(lanes := kept), webhook, id);
      assert WithLane(s, webhook, id) == LaneAdded(s.(lanes := kept), webhook, id);
    }
  }

  lemma ShareAdded(s: State, f: FanId, l: LaneId)
    requires TicketSharesOk(s.shares, s.webhooks, s.tickets) && FanSharesOk(s.shares, s.webhooks, s.fans)
    requires LiveLanesOk(s.shares, s.webhooks, s.lanes) && SlotHoldersOk(s.slots, s.shares, s.tickets)
    requires f in s.fans && s.fans[f].remaining != [] && ByFan(f) !in s.shares
    requires Current(l, s.webhooks, s.lanes) && s.webhooks[l] == s.fans[f].remaining[0]
    ensures LiveLanesOk(s.shares[ByFan(f) := l], s.webhooks, s.lanes)
    ensures FanSharesOk(s.shares[ByFan(f) := l], s.webhooks, s.fans)
    ensures TicketSharesOk(s.shares[ByFan(f) := l], s.webhooks, s.tickets)
    ensures SlotHoldersOk(s.slots, s.shares[ByFan(f) := l], s.tickets)
  {
  }

  lemma LaneCountsAdded(s: State, f: FanId, l: LaneId)
    requires ShareCountOk(s.laneTable, s.shares, s.limits) && SlotCountOk(s.laneTable, s.slots, s.limits)
    requires ByFan(f) !in s.shares && l in s.laneTable && s.laneTable[l].share > 0
    ensures var table := s.laneTable[l := s.laneTable[l].(share := s.laneTable[l].share - 1)];
            ShareCountOk(table, s.shares[ByFan(f) := l], s.limits) && SlotCountOk(table, s.slots, s.limits)
  {
    forall k | k in s.laneTable
      ensures Count(s.shares[ByFan(f) := l], k) == Count(s.shares, k) + if l == k then 1 else 0
    {
      CountAdd(s.shares, ByFan(f), l, k);
    }
  }

  lemma KeepsOnShare(s: State, f: FanId, l: LaneId)
    requires Inv(s) && f in s.fans && s.fans[f].remaining != [] && ByFan(f) !in s.shares
    requires Current(l, s.webhooks, s.lanes) && s.webhooks[l] == s.fans[f].remaining[0] && LaneAt(s, l).share > 0
    ensures Inv(s.(shares := s.shares[ByFan(f) := l],
                   laneTable := s.laneTable[l := LaneAt(s, l).(share := LaneAt(s, l).share - 1)]))
  {
    ShareAdded(s, f, l);
    LaneCountsAdded(s, f, l);
  }

  /** Passing a share from the fan-out to its delivery leaves every lane's count alone. */
  lemma CountsAfterHand(s: State, f: FanId, t: TicketId, l: LaneId)
    requires ByFan(f) in s.shares && ByTicket(t) !in s.shares
    ensures Count((s.shares - {ByFan(f)})[ByTicket(t) := s.shares[ByFan(f)]], l) == Count(s.shares, l)
  {
    CountRemove(s.shares, ByFan(f), l);
    CountAdd(s.shares - {ByFan(f)}, ByTicket(t), s.shares[ByFan(f)], l);
  }

  lemma NotYetShared(s: State, f: FanId, t: TicketId)
    requires Inv(s) && f in s.fans && (t in s.tickets ==> s.fans[f].carried == Some(t))
    ensures ByTicket(t) !in s.shares && t !in s.slots && t !in s.sending
    ensures forall i :: 0 <= i < |s.channel| ==> s.channel[i] != t
  {
    forall i | 0 <= i < |s.channel|
      ensures s.channel[i] != t
    {
      assert IsAt(s.tickets, s.channel[i], Queued);
    }
  }

  ghost function HandedShares(s: State, f: FanId, t: TicketId): map<Owner, LaneId>
    requires ByFan(f) in s.shares
  {
    (s.shares - {ByFan(f)})[ByTicket(t) := s.shares[ByFan(f)]]
  }

  lemma TicketHanded(s: State, f: FanId, t: TicketId)
    requires Inv(s) && f in s.fans && s.fans[f].remaining != []
    requires if t in s.tickets then s.fans[f].carried == Some(t) else s.fans[f].carried.None?
    ensures var tickets := s.tickets[t := Delivery(s.fans[f].remaining[0], Sendable)];
            && ChannelOk(s.channel, tickets)
            && SendersOk(s.sending, s.slots, tickets)
            && FansOk(s.fans[f := Fan(None, s.fans[f].remaining[1..])], tickets)
  {
    NotYetShared(s, f, t);
  }

  lemma FanSharesHanded(s: State, f: FanId, t: TicketId)
    requires f in s.fans && s.fans[f].remaining != [] && ByFan(f) in s.shares
    requires LiveLanesOk(s.shares, s.webhooks, s.lanes) && FanSharesOk(s.shares, s.webhooks, s.fans)
    ensures LiveLanesOk(HandedShares(s, f, t), s.webhooks, s.lanes)
    ensures FanSharesOk(HandedShares(s, f, t), s.webhooks, s.fans[f := Fan(None, s.fans[f].remaining[1..])])
  {
  }

  lemma TicketSharesHanded(s: State, f: FanId, t: TicketId)
    requires f in s.fans && s.fans[f].remaining != [] && ByFan(f) in s.shares && t !in s.slots
    requires FanSharesOk(s.shares, s.webhooks, s.fans) && TicketSharesOk(s.shares, s.webhooks, s.tickets)
    requires SlotHoldersOk(s.slots, s.shares, s.tickets)
    ensures var tickets := s.tickets[t := Delivery(s.fans[f].remaining[0], Sendable)];
            && TicketSharesOk(HandedShares(s, f, t), s.webhooks, tickets)
            && SlotHoldersOk(s.slots, HandedShares(s, f, t), tickets)
  {
  }

  lemma CountsHanded(s: State, f: FanId, t: TicketId)
    requires Inv(s) && f in s.fans && ByFan(f) in s.shares && (t in s.tickets ==> s.fans[f].carried == Some(t))
    ensures ShareCountOk(s.laneTable, HandedShares(s, f, t), s.limits)
  {
    NotYetShared(s, f, t);
    forall l | l in s.laneTable
      ensures Count(HandedShares(s, f, t), l) == Count(s.shares, l)
    {
      CountsAfterHand(s, f, t, l);
    }
  }

  lemma KeepsOnHand(s: State, admission: int, f: FanId, t: TicketId)
    requires Inv(s) && f in s.fans && s.fans[f].remaining != [] && ByFan(f) in s.shares
    requires if t in s.tickets then s.fans[f].carried == Some(t) && admission == s.admission
             else s.fans[f].carried.None? && admission == s.admission - 1 && s.admission > 0
    ensures Inv(Hand(s.(admission := admission), f, t, Delivery(s.fans[f].remaining[0], Sendable)))
  {
    SizeAdd(s.tickets, t, Delivery(s.fans[f].remaining[0], Sendable));
    TicketHanded(s, f, t);
    NotYetShared(s, f, t);
    FanSharesHanded(s, f, t);
    TicketSharesHanded(s, f, t);
    CountsHanded(s, f, t);
  }

  lemma SlotTaken(s: State, t: TicketId)
    requires ByTicket(t) in s.shares && t !in s.slots && t !in s.sending
    requires s.shares[ByTicket(t)] in s.laneTable && s.laneTable[s.shares[ByTicket(t)]].slots > 0
    requires IsAt(s.tickets, t, InHand) || IsAt(s.tickets, t, Sendable)
    requires ShareCountOk(s.laneTable, s.shares, s.limits) && SlotCountOk(s.laneTable, s.slots, s.limits)
    requires SlotHoldersOk(s.slots, s.shares, s.tickets) && SendersOk(s.sending, s.slots, s.tickets)
    ensures var n := TakeSlot(s, t);
            && ShareCountOk(n.laneTable, s.shares, s.limits) && SlotCountOk(n.laneTable, n.slots, s.limits)
            && SlotHoldersOk(n.slots, s.shares, s.tickets) && SendersOk(s.sending, n.slots, s.tickets)
            && n.laneTable.Keys == s.laneTable.Keys
  {
    var l := s.shares[ByTicket(t)];
    forall k | k in s.laneTable
      ensures Count(s.slots[t := l], k) == Count(s.slots, k) + if l == k then 1 else 0
    {
      CountAdd(s.slots, t, l, k);
    }
  }

  lemma KeepsOnSlot(s: State, t: TicketId)
    requires Inv(s) && ByTicket(t) in s.shares && t !in s.slots && t in SlotSeekers(s)
    requires s.tickets[t].place == InHand || s.tickets[t].place == Sendable
    ensures Inv(TakeSlot(s, t))
  {
    assert Current(s.shares[ByTicket(t)], s.webhooks, s.lanes);
    SlotTaken(s, t);
  }

  /** A ticket that is neither in hand nor an event's is not what a fan-out carries. */
  lemma NotCarried(s: State, t: TicketId)
    requires Inv(s) && t in s.tickets && (s.tickets[t].place != InHand || s.tickets[t].Delivery?)
    ensures forall f :: f in s.fans ==> s.fans[f].carried != Some(t)
  {
  }

  lemma StepSend(s: State, t: TicketId)
    requires Inv(s) && Enabled(s, Send(t))
    ensures Inv(SendStep(s, t))
  {
    RoomToSend(s, t);
    NotCarried(s, t);
    forall i | 0 <= i < |s.channel|
      ensures s.channel[i] != t
    {
      assert IsAt(s.tickets, s.channel[i], Queued);
    }
    KeepsOnMove(s, t, Queued, s.channel + [t]);
  }

  lemma StepReceive(s: State)
    requires Inv(s) && s.channel != []
    ensures Inv(Apply(s, Receive))
  {
    var t := s.channel[0];
    assert IsAt(s.tickets, t, Queued);
    NotCarried(s, t);
    KeepsOnMove(s, t, InHand, s.channel[1..]);
  }

  lemma StepTakeShare(s: State, f: FanId, id: LaneId)
    requires Inv(s) && Enabled(s, TakeShare(f, id))
    ensures Inv(TakeShareStep(s, f, id))
  {
    var webhook := s.fans[f].remaining[0];
    KeepsOnLane(s, webhook, id);
    KeepsOnTry(WithLane(s, webhook, id), f, webhook);
  }

  lemma KeepsOnTry(s: State, f: FanId, webhook: string)
    requires Inv(s) && f in s.fans && ByFan(f) !in s.shares
    requires s.fans[f].remaining != [] && s.fans[f].remaining[0] == webhook
    requires webhook in s.lanes && Current(s.lanes[webhook], s.webhooks, s.lanes) && s.webhooks[s.lanes[webhook]] == webhook
    ensures Inv(TryShare(s, f, s.lanes[webhook]))
  {
    if LaneAt(s, s.lanes[webhook]).share > 0 {
      KeepsOnShare(s, f, s.lanes[webhook]);
    } else {
      KeepsOnNext(Drop(s), f);
    }
  }

  lemma StepTakePermit(s: State, f: FanId, t: TicketId)
    requires Inv(s) && Enabled(s, TakePermit(f, t))
    ensures Inv(TakePermitStep(s, f, t))
  {
    if s.fans[f].carried.Some? {
      KeepsOnHand(s, s.admission, f, s.fans[f].carried.value);
    } else if s.admission > 0 {
      KeepsOnHand(s, s.admission - 1, f, t);
    } else {
      KeepsOnFanShareEnd(s, f);
      assert Current(s.shares[ByFan(f)], s.webhooks, s.lanes);
      KeepsOnNext(Drop(FreeShare(s, ByFan(f))), f);
    }
  }

  lemma StepEndFan(s: State, f: FanId)
    requires Inv(s) && f in s.fans
    ensures Inv(EndFanStep(s, f))
  {
    KeepsOnFanShareEnd(s, f);
    if ByFan(f) in s.shares {
      assert Current(s.shares[ByFan(f)], s.webhooks, s.lanes);
    }
    KeepsOnFanEnd(FreeShare(s, ByFan(f)), f);
  }

  lemma StepWork(s: State, t: TicketId)
    requires Inv(s) && Enabled(s, Work(t))
    ensures Inv(WorkStep(s, t))
  {
    LaneOfTicket(s, t);
    if t in SlotSeekers(s) {
      KeepsOnSlot(s, t);
    } else {
      NotCarried(s, t);
      KeepsOnMoveApart(s, t, Waiting);
    }
  }

  /** A move that does not concern the channel. */
  lemma KeepsOnMoveApart(s: State, t: TicketId, place: Place)
    requires Inv(s) && t in s.tickets && t !in s.sending && s.tickets[t].place != Queued
    requires forall f :: f in s.fans ==> s.fans[f].carried != Some(t)
    requires t in s.slots ==> place == Sendable || place == InHand
    ensures Inv(Moved(s, t, place))
  {
    forall i | 0 <= i < |s.channel|
      ensures s.channel[i] != t
    {
      assert IsAt(s.tickets, s.channel[i], Queued);
    }
    KeepsOnMove(s, t, place, s.channel);
  }

  lemma StepLaneTurn(s: State, t: TicketId)
    requires Inv(s) && Enabled(s, LaneTurn(t))
    ensures Inv(Apply(s, LaneTurn(t)))
  {
    LaneOfTicket(s, t);
    NotCarried(s, t);
    KeepsOnMoveApart(s, t, Sendable);
    KeepsOnSlot(Moved(s, t, Sendable), t);
  }

  lemma StepLeaveLane(s: State, t: TicketId)
    requires Inv(s) && Enabled(s, LeaveLane(t))
    ensures Inv(LeaveLaneStep(s, t))
  {
    LaneOfTicket(s, t);
    KeepsOnSlotEnd(s, t);
    var freed := FreeSlot(s, t);
    NotCarried(freed, t);
    KeepsOnMoveApart(freed, t, Settling);
  }

  /** An attempted delivery holds no slot of any kind any more. */
  lemma SettlingIsFree(s: State, t: TicketId)
    requires SlotHoldersOk(s.slots, s.shares, s.tickets) && SendersOk(s.sending, s.slots, s.tickets)
    requires DeliveryAt(s, t, Settling)
    ensures t !in s.slots && t !in s.sending
  {
  }

  lemma StepRetry(s: State, t: TicketId)
    requires Inv(s) && Enabled(s, Retry(t))
    ensures Inv(Moved(s, t, Backoff))
  {
    SettlingIsFree(s, t);
    NotCarried(s, t);
    KeepsOnMoveApart(s, t, Backoff);
  }

  lemma StepConclude(s: State, t: TicketId)
    requires Inv(s) && Enabled(s, Conclude(t))
    ensures Inv(Resolve(s, t))
  {
    SettlingIsFree(s, t);
    KeepsOnLeave(s, t);
  }

  lemma KeepsOnRequest(s: State, t: TicketId)
    requires Inv(s) && t in s.slots && t !in s.sending && IsAt(s.tickets, t, InHand) && s.requestSlots > 0
    ensures Inv(s.(sending := s.sending + {t}, requestSlots := s.requestSlots - 1))
  {
  }

  lemma KeepsOnManual(s: State, manual: nat, requestSlots: int)
    requires Inv(s) && requestSlots >= 0 && manual + requestSlots == s.manual + s.requestSlots
    ensures Inv(s.(manual := manual, requestSlots := requestSlots))
  {
  }

  ghost predicate FansOut(op: Op) {
    op.QueueEvent? || op.Send? || op.Receive? || op.BeginFan? || op.TakeShare? || op.TakePermit? || op.EndFan?
  }

  lemma FanOutKeepsInv(s: State, op: Op)
    requires Inv(s) && Enabled(s, op) && FansOut(op)
    ensures Inv(Apply(s, op))
  {
    match op
    case QueueEvent(t) =>
      if s.admission > 0 {
        KeepsOnAdmit(s, t);
      }
    case Send(t) => StepSend(s, t);
    case Receive => StepReceive(s);
    case BeginFan(f, carried, webhooks) => KeepsOnBegin(s, f, carried, webhooks);
    case TakeShare(f, id) => StepTakeShare(s, f, id);
    case TakePermit(f, t) => StepTakePermit(s, f, t);
    case EndFan(f) => StepEndFan(s, f);
  }

  lemma WorkKeepsInv(s: State, op: Op)
    requires Inv(s) && Enabled(s, op) && !FansOut(op)
    ensures Inv(Apply(s, op))
  {
    match op
    case Work(t) => StepWork(s, t);
    case LaneTurn(t) => StepLaneTurn(s, t);
    case EndRequest(t) => KeepsOnRequestEnd(s, t);
    case LeaveLane(t) => StepLeaveLane(s, t);
    case Retry(t) => StepRetry(s, t);
    case Conclude(t) => StepConclude(s, t);
    case Request(t) => KeepsOnRequest(s, t);
    case ManualBegin => KeepsOnManual(s, s.manual + 1, s.requestSlots - 1);
    case ManualEnd => KeepsOnManual(s, s.manual - 1, s.requestSlots + 1);
  }

  lemma StepKeepsInv(s: State, op: Op)
    requires Inv(s) && Enabled(s, op)
    ensures Inv(Apply(s, op))
  {
    if FansOut(op) {
      FanOutKeepsInv(s, op);
    } else {
      WorkKeepsInv(s, op);
    }
  }

  lemma StartInv(limits: Limits)
    requires limits == Normalized(limits)
    ensures Inv(Start(limits))
  {
  }

  // ---------------------------------------------------------------------------
  // Runs
  // ---------------------------------------------------------------------------

  datatype Run = Run(states: seq<State>, ops: seq<Op>) {
    ghost predicate Valid() {
      && |states| == |ops| + 1
      && states[0] == Start(Normalized(states[0].limits))
      && forall i {:trigger ops[i]} :: 0 <= i < |ops| ==> Follows(states[i], ops[i], states[i + 1])
    }
  }

  ghost predicate Follows(s: State, op: Op, n: State) {
    Enabled(s, op) && n == Apply(s, op)
  }

  lemma EveryStepKeepsInv()
    ensures forall s, op, n {:trigger Follows(s, op, n)} :: Inv(s) && Follows(s, op, n) ==> Inv(n) && n.limits == s.limits
  {
    forall s, op, n | Inv(s) && Follows(s, op, n)
      ensures Inv(n) && n.limits == s.limits
    {
      StepKeepsInv(s, op);
    }
  }

  lemma {:induction false} RunInv(run: Run, i: nat)
    requires run.Valid() && i < |run.states|
    ensures Inv(run.states[i]) && run.states[i].limits == run.states[0].limits
  {
    StartInv(run.states[0].limits);
    EveryStepKeepsInv();
    Carried(run, i, s => Inv(s) && s.limits == run.states[0].limits);
  }

  /** What holds at the start and is kept by every step holds throughout. */
  lemma {:induction false} Carried(run: Run, i: nat, inv: State -> bool)
    requires run.Valid() && i < |run.states| && inv(run.states[0])
    requires forall s, op, n {:trigger Follows(s, op, n)} :: inv(s) && Follows(s, op, n) ==> inv(n)
    ensures inv(run.states[i])
  {
    if i > 0 {
      Carried(run, i - 1, inv);
      var op := run.ops[i - 1];
    }
  }

  /** Free permits plus admitted, unresolved items always make up the queue's capacity, and
      request slots in use never exceed their number. */
  lemma PermitsConserved(run: Run, i: nat)
    requires run.Valid() && i < |run.states|
    ensures var s := run.states[i];
            && s.admission >= 0 && s.admission + |s.tickets| == s.limits.queueCapacity
            && |s.sending| + s.manual <= s.limits.maxConcurrent
  {
    RunInv(run, i);
  }

  /** A send never finds the channel full: the item goes in and nothing is dropped. */
  lemma SendNeverFull(run: Run, i: nat)
    requires run.Valid() && i < |run.ops| && run.ops[i].Send?
    ensures |run.states[i].channel| < run.states[i].limits.queueCapacity
    ensures run.states[i + 1].channel == run.states[i].channel + [run.ops[i].ticket]
    ensures run.states[i + 1].dropped == run.states[i].dropped
  {
    RunInv(run, i);
    assert Follows(run.states[i], run.ops[i], run.states[i + 1]);
    RoomToSend(run.states[i], run.ops[i].ticket);
  }

  lemma NothingHeld(s: State)
    requires Inv(s) && s.tickets == map[] && s.fans == map[]
    ensures s.channel == [] && s.shares == map[] && s.slots == map[] && s.sending == {}
  {
    forall o | o in s.shares
      ensures false
    {
      match o
      case ByFan(f) =>
      case ByTicket(t) =>
    }
    DistinctSize(s.channel, s.tickets.Keys);
  }

  /** Once every item has resolved, every permit of every kind is back. */
  lemma EverythingReturns(run: Run, i: nat, l: LaneId)
    requires run.Valid() && i < |run.states| && run.states[i].tickets == map[] && run.states[i].fans == map[]
    requires l in run.states[i].laneTable
    ensures var s := run.states[i];
            && s.admission == s.limits.queueCapacity && s.channel == []
            && s.laneTable[l] == Lane(s.limits.perWebhookConcurrency, s.limits.perWebhookQueue)
            && s.requestSlots + s.manual == s.limits.maxConcurrent
  {
    RunInv(run, i);
    NothingHeld(run.states[i]);
  }

  /** Live deliveries to one webhook are all on one lane, however often lanes were pruned. */
  lemma OneLivePerWebhook(run: Run, i: nat, t: TicketId, u: TicketId)
    requires run.Valid() && i < |run.states| && t in run.states[i].tickets && u in run.states[i].tickets
    requires run.states[i].tickets[t].Delivery? && run.states[i].tickets[u].Delivery?
    requires run.states[i].tickets[t].webhook == run.states[i].tickets[u].webhook
    ensures ByTicket(t) in run.states[i].shares && ByTicket(u) in run.states[i].shares
    ensures run.states[i].shares[ByTicket(t)] == run.states[i].shares[ByTicket(u)]
  {
    RunInv(run, i);
    SameLane(run.states[i], t, u);
  }

  lemma SameLane(s: State, t: TicketId, u: TicketId)
    requires LiveLanesOk(s.shares, s.webhooks, s.lanes) && TicketSharesOk(s.shares, s.webhooks, s.tickets)
    requires t in s.tickets && s.tickets[t].Delivery? && u in s.tickets && s.tickets[u].Delivery?
    requires s.tickets[t].webhook == s.tickets[u].webhook
    ensures ByTicket(t) in s.shares && ByTicket(u) in s.shares && s.shares[ByTicket(t)] == s.shares[ByTicket(u)]
  {
    assert Current(s.shares[ByTicket(t)], s.webhooks, s.lanes);
    assert Current(s.shares[ByTicket(u)], s.webhooks, s.lanes);
  }

  /** Live queued deliveries to `webhook`, and those whose request is in flight. Manual retries
      are neither: they take a request slot but none of the lane's. */
  ghost function Backlog(s: State, webhook: string): set<TicketId> {
    set t | t in s.tickets && s.tickets[t].Delivery? && s.tickets[t].webhook == webhook
  }

  ghost function InFlight(s: State, webhook: string): set<TicketId> {
    Backlog(s, webhook) * s.sending
  }

  lemma {:induction false} OwnersSize(ids: set<TicketId>, owners: set<Owner>)
    requires forall t :: t in ids ==> ByTicket(t) in owners
    ensures |ids| <= |owners|
    decreases ids
  {
    if t :| t in ids {
      OwnersSize(ids - {t}, owners - {ByTicket(t)});
    }
  }

  /** However many lanes came and went, a webhook never has more live deliveries than its
      share of the queue, nor more of their requests in flight than its slots. */
  lemma WebhookBounded(run: Run, i: nat, webhook: string)
    requires run.Valid() && i < |run.states|
    ensures |Backlog(run.states[i], webhook)| <= run.states[i].limits.perWebhookQueue
    ensures |InFlight(run.states[i], webhook)| <= run.states[i].limits.perWebhookConcurrency
  {
    var s := run.states[i];
    RunInv(run, i);
    if t :| t in Backlog(s, webhook) {
      LaneOfTicket(s, t);
      var l := s.shares[ByTicket(t)];
      forall u | u in Backlog(s, webhook)
        ensures ByTicket(u) in s.shares && s.shares[ByTicket(u)] == l
      {
        SameLane(s, t, u);
      }
      OwnersSize(Backlog(s, webhook), set o | o in s.shares && s.shares[o] == l);
      SubsetSize(InFlight(s, webhook), set u | u in s.slots && s.slots[u] == l);
    }
  }

  // ---------------------------------------------------------------------------
  // Limits
  // ---------------------------------------------------------------------------

  /** Limits derived from a slot count need no correction, normalizing twice changes nothing,
      and from four slots up one webhook gets at most a quarter of each. */
  lemma LimitsSettled(l: Limits, n: nat)
    ensures Normalized(Normalized(l)) == Normalized(l)
    ensures Normalized(FromConcurrency(n)) == FromConcurrency(n)
    ensures n >= 4 ==> FromConcurrency(n).perWebhookConcurrency * 4 <= FromConcurrency(n).maxConcurrent
                       && FromConcurrency(n).perWebhookQueue * 4 <= FromConcurrency(n).queueCapacity
  {
  }
}
