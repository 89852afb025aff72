/** The bounded queue of outgoing webhook deliveries.

    Every admitted event or delivery holds one admission permit, here a ticket, until it
    resolves. A delivery also holds one unit of its webhook's lane and, while it is being
    worked, one of the lane's request slots. Tasks interleave at every await and at every
    acquisition, send and receive; only permits that are dropped together, with nothing awaited
    in between, are returned in one step.
 */
module DeliveryQueue {
  import opened Wrappers

  const MAX_CONSUMERS := 1024
  const MAX_QUEUE_CAPACITY := 1048576
  const LANE_PRUNE_THRESHOLD := 1024

  // ---------------------------------------------------------------------------
  // Limits
  // ---------------------------------------------------------------------------

  datatype Limits = Limits(
    maxConcurrent: int, queueCapacity: int, perWebhookConcurrency: int, perWebhookQueue: int)

  function Clamp(x: int, lo: int, hi: int): int {
    if x < lo then lo else if x > hi then hi else x
  }

  function Max(a: int, b: int): int {
    if a < b then b else a
  }

  function FromConcurrency(maxConcurrent: nat): Limits {
    var slots := Clamp(maxConcurrent, 1, MAX_CONSUMERS);
    var queue := slots * 16;
    Limits(slots, queue, Max(slots / 4, 1), Max(queue / 4, 1))
  }

  function Normalized(l: Limits): Limits {
    var slots := Clamp(l.maxConcurrent, 1, MAX_CONSUMERS);
    var queue := Clamp(l.queueCapacity, 1, MAX_QUEUE_CAPACITY);
    Limits(slots, queue, Clamp(l.perWebhookConcurrency, 1, slots), Clamp(l.perWebhookQueue, 1, queue))
  }

  // ---------------------------------------------------------------------------
  // State
  // ---------------------------------------------------------------------------

  type TicketId = nat
  type FanId = nat
  type LaneId = nat

  datatype Place =
    | Sendable      // on its way into the channel
    | Queued        // in the channel
    | InHand        // with a consumer
    | Waiting       // for its lane's next slot
    | Settling      // attempted; its outcome is being written
    | Backoff       // sleeping before a retry

  /** What an admission permit travels with. */
  datatype Ticket =
    | Event(place: Place)
    | Delivery(webhook: string, place: Place)

  /** A webhook's semaphores: request slots and queue share still free. */
  datatype Lane = Lane(slots: int, share: int)

  /** Matching an event to webhooks. `carried` is the event's own ticket until it is used. */
  datatype Fan = Fan(carried: Option<TicketId>, remaining: seq<string>)

  datatype Owner = ByFan(fan: FanId) | ByTicket(ticket: TicketId)

  datatype State = State(
    limits: Limits,
    admission: int,                     // free admission permits
    tickets: map<TicketId, Ticket>,     // permits in use
    channel: seq<TicketId>,
    fans: map<FanId, Fan>,
    lanes: map<string, LaneId>,         // the lane map
    laneTable: map<LaneId, Lane>,       // every lane made so far
    webhooks: map<LaneId, string>,      // and the webhook it was made for
    shares: map<Owner, LaneId>,         // lane shares in use
    slots: map<TicketId, LaneId>,       // lane slots in use
    sending: set<TicketId>,             // deliveries whose request is in flight
    manual: nat,                        // manual retries in flight
    requestSlots: int,                  // free request slots, process-wide
    dropped: nat)

  function Start(limits: Limits): State {
    State(limits, limits.queueCapacity, map[], [], map[], map[], map[], map[], map[], map[], {}, 0, limits.maxConcurrent, 0)
  }

  // ---------------------------------------------------------------------------
  // Operations on lanes
  // ---------------------------------------------------------------------------

  function LaneAt(s: State, l: LaneId): Lane {
    if l in s.laneTable then s.laneTable[l] else Lane(0, 0)
  }

  /** Past the threshold, a new webhook's arrival forgets the lanes with no share in use. */
  function Pruned(s: State, webhook: string): map<string, LaneId> {
    if |s.lanes| >= LANE_PRUNE_THRESHOLD && webhook !in s.lanes then
      map w | w in s.lanes && LaneAt(s, s.lanes[w]).share < s.limits.perWebhookQueue :: s.lanes[w]
    else s.lanes
  }

  /** The webhook's lane, made anew under `id` when the map has none. */
  function WithLane(s: State, webhook: string, id: LaneId): State {
    var kept := Pruned(s, webhook);
    if webhook in kept then s.(lanes := kept)
    else
      s.(lanes := kept[webhook := id],
         laneTable := s.laneTable[id := Lane(s.limits.perWebhookConcurrency, s.limits.perWebhookQueue)],
         webhooks := s.webhooks[id := webhook])
  }

  function FreeShare(s: State, who: Owner): (n: State)
    ensures n.limits == s.limits && n.dropped == s.dropped
  {
    if who in s.shares && s.shares[who] in s.laneTable then
      var l := s.shares[who];
      s.(shares := s.shares - {who}, laneTable := s.laneTable[l := s.laneTable[l].(share := s.laneTable[l].share + 1)])
    else s
  }

  function FreeSlot(s: State, t: TicketId): (n: State)
    ensures n.limits == s.limits && n.dropped == s.dropped
  {
    if t in s.slots && s.slots[t] in s.laneTable then
      var l := s.slots[t];
      s.(slots := s.slots - {t}, laneTable := s.laneTable[l := s.laneTable[l].(slots := s.laneTable[l].slots + 1)])
    else s
  }

  function FreeRequest(s: State, t: TicketId): (n: State)
    ensures n.limits == s.limits && n.dropped == s.dropped
  {
    if t in s.sending then s.(sending := s.sending - {t}, requestSlots := s.requestSlots + 1) else s
  }

  function FreeTicket(s: State, t: TicketId): (n: State)
    ensures n.limits == s.limits && n.dropped == s.dropped
  {
    if t in s.tickets then s.(tickets := s.tickets - {t}, admission := s.admission + 1) else s
  }

  /** Dropping an item returns everything it holds. */
  function Resolve(s: State, t: TicketId): (n: State)
    ensures n.limits == s.limits && n.dropped == s.dropped
  {
    FreeTicket(FreeShare(FreeSlot(FreeRequest(s, t), t), ByTicket(t)), t)
  }

  function Drop(s: State): State {
    s.(dropped := s.dropped + 1)
  }

  function Moved(s: State, t: TicketId, place: Place): State {
    if t in s.tickets then s.(tickets := s.tickets[t := s.tickets[t].(place := place)]) else s
  }

  function Next(s: State, f: FanId): State {
    if f in s.fans && s.fans[f].remaining != []
    then s.(fans := s.fans[f := s.fans[f].(remaining := s.fans[f].remaining[1..])]) else s
  }

  // ---------------------------------------------------------------------------
  // Steps
  // ---------------------------------------------------------------------------

  datatype Op =
    | QueueEvent(ticket: TicketId)
    | Send(ticket: TicketId)                                   // into the channel
    | Receive                                                  // a consumer takes the next item
    | BeginFan(fan: FanId, carried: Option<TicketId>, webhooks: seq<string>)
    | TakeShare(fan: FanId, lane: LaneId)
    | TakePermit(fan: FanId, ticket: TicketId)
    | EndFan(fan: FanId)
    | Work(ticket: TicketId)                                   // asks its lane for a slot
    | LaneTurn(ticket: TicketId)                               // is granted one later
    | Request(ticket: TicketId)
    | EndRequest(ticket: TicketId)
    | LeaveLane(ticket: TicketId)                              // before the outcome is written
    | Retry(ticket: TicketId)
    | Conclude(ticket: TicketId)                               // resolved or dropped
    | ManualBegin
    | ManualEnd

  predicate At(s: State, t: TicketId, place: Place) {
    t in s.tickets && s.tickets[t].place == place
  }

  predicate DeliveryAt(s: State, t: TicketId, place: Place) {
    At(s, t, place) && s.tickets[t].Delivery?
  }

  /** An event in hand is fanned out once. */
  predicate CanBegin(s: State, f: FanId, carried: Option<TicketId>) {
    && f !in s.fans
    && (carried.Some? ==> At(s, carried.value, InHand) && s.tickets[carried.value].Event?
                          && forall g :: g in s.fans ==> s.fans[g].carried != carried)
  }

  predicate Enabled(s: State, op: Op) {
    match op
    case QueueEvent(t) => t !in s.tickets
    case Send(t) => At(s, t, Sendable) || DeliveryAt(s, t, Backoff)
    case Receive => s.channel != []
    case BeginFan(f, carried, _) => CanBegin(s, f, carried)
    case TakeShare(f, l) => f in s.fans && s.fans[f].remaining != [] && ByFan(f) !in s.shares && l !in s.laneTable
    case TakePermit(f, t) => f in s.fans && s.fans[f].remaining != [] && ByFan(f) in s.shares && t !in s.tickets
    case EndFan(f) => f in s.fans
    case Work(t) => DeliveryAt(s, t, InHand) && t !in s.slots
    case LaneTurn(t) => DeliveryAt(s, t, Waiting) && t in SlotSeekers(s)
    case Request(t) => DeliveryAt(s, t, InHand) && t in s.slots && t !in s.sending && s.requestSlots > 0
    case EndRequest(t) => t in s.sending
    case LeaveLane(t) => DeliveryAt(s, t, InHand) && t in s.slots && t !in s.sending
    case Retry(t) => DeliveryAt(s, t, Settling)
    case Conclude(t) => DeliveryAt(s, t, Settling)
    case ManualBegin => s.requestSlots > 0
    case ManualEnd => s.manual > 0
  }

  /** Deliveries whose lane has a slot free. */
  function SlotSeekers(s: State): set<TicketId> {
    set t | t in s.tickets && ByTicket(t) in s.shares && LaneAt(s, s.shares[ByTicket(t)]).slots > 0
  }

  function TakeSlot(s: State, t: TicketId): State
    requires ByTicket(t) in s.shares
  {
    var l := s.shares[ByTicket(t)];
    s.(slots := s.slots[t := l], laneTable := s.laneTable[l := LaneAt(s, l).(slots := LaneAt(s, l).slots - 1)])
  }

  function SendStep(s: State, t: TicketId): (n: State)
    ensures n.limits == s.limits
  {
    if |s.channel| < s.limits.queueCapacity then Moved(s, t, Queued).(channel := s.channel + [t])
    else Drop(Resolve(s, t))
  }

  function TakeShareStep(s: State, f: FanId, id: LaneId): (n: State)
    requires f in s.fans && s.fans[f].remaining != [] && ByFan(f) !in s.shares
    ensures n.limits == s.limits
  {
    var webhook := s.fans[f].remaining[0];
    var next := WithLane(s, webhook, id);
    TryShare(next, f, next.lanes[webhook])
  }

  /** Takes one unit of the lane's share, or drops the delivery when there is none. */
  function TryShare(s: State, f: FanId, l: LaneId): State {
    if LaneAt(s, l).share > 0 then
      s.(shares := s.shares[ByFan(f) := l],
         laneTable := s.laneTable[l := LaneAt(s, l).(share := LaneAt(s, l).share - 1)])
    else Next(Drop(s), f)
  }

  function TakePermitStep(s: State, f: FanId, t: TicketId): (n: State)
    requires f in s.fans && s.fans[f].remaining != [] && ByFan(f) in s.shares
    ensures n.limits == s.limits
  {
    var fan := s.fans[f];
    var item := Delivery(fan.remaining[0], Sendable);
    if fan.carried.Some? then
      Hand(s, f, fan.carried.value, item)
    else if s.admission > 0 then
      Hand(s.(admission := s.admission - 1), f, t, item)
    else Next(Drop(FreeShare(s, ByFan(f))), f)
  }

  /** The fan-out gives its share, and the permit behind `t`, to a new delivery. */
  function Hand(s: State, f: FanId, t: TicketId, item: Ticket): State
    requires f in s.fans && s.fans[f].remaining != [] && ByFan(f) in s.shares
  {
    s.(tickets := s.tickets[t := item],
       shares := (s.shares - {ByFan(f)})[ByTicket(t) := s.shares[ByFan(f)]],
       fans := s.fans[f := Fan(None, s.fans[f].remaining[1..])])
  }

  function EndFanStep(s: State, f: FanId): (n: State)
    requires f in s.fans
    ensures n.limits == s.limits && n.dropped == s.dropped
  {
    var freed := FreeShare(s, ByFan(f));
    var fan := s.fans[f];
    var returned := if fan.carried.Some? then FreeTicket(freed, fan.carried.value) else freed;
    returned.(fans := s.fans - {f})
  }

  function WorkStep(s: State, t: TicketId): State {
    if t in SlotSeekers(s) then TakeSlot(s, t) else Moved(s, t, Waiting)
  }

  function LeaveLaneStep(s: State, t: TicketId): (n: State)
    ensures n.limits == s.limits && n.dropped == s.dropped
  {
    Moved(FreeSlot(s, t), t, Settling)
  }

  function Apply(s: State, op: Op): (n: State)
    requires Enabled(s, op)
    ensures n.limits == s.limits
  {
    match op
    case QueueEvent(t) =>
      if s.admission > 0 then s.(admission := s.admission - 1, tickets := s.tickets[t := Event(Sendable)]) else Drop(s)
    case Send(t) => SendStep(s, t)
    case Receive => Moved(s, s.channel[0], InHand).(channel := s.channel[1..])
    case BeginFan(f, carried, webhooks) => s.(fans := s.fans[f := Fan(carried, webhooks)])
    case TakeShare(f, id) => TakeShareStep(s, f, id)
    case TakePermit(f, t) => TakePermitStep(s, f, t)
    case EndFan(f) => EndFanStep(s, f)
    case Work(t) => WorkStep(s, t)
    case LaneTurn(t) => TakeSlot(Moved(s, t, Sendable), t)
    case Request(t) => s.(sending := s.sending + {t}, requestSlots := s.requestSlots - 1)
    case EndRequest(t) => FreeRequest(s, t)
    case LeaveLane(t) => LeaveLaneStep(s, t)
    case Retry(t) => Moved(s, t, Backoff)
    case Conclude(t) => Resolve(s, t)
    case ManualBegin => s.(manual := s.manual + 1, requestSlots := s.requestSlots - 1)
    case ManualEnd => s.(manual := s.manual - 1, requestSlots := s.requestSlots + 1)
  }
}
