/**
 The router of the network simulator as a concurrent system: one reader per
 node, the model they share, a bounded channel and one deliverer with a heap.
 Each `Step` is one atomic action of one goroutine, and a run is any
 interleaving of them.
 */
module Router {
  import opened Wrappers
  import opened PacketHeap
  import LinkModel

  const QUEUE_CAPACITY: nat := 4096

  datatype Config = Config(
    profiles: LinkModel.Profiles,
    placements: seq<LinkModel.Placement>,
    byAddr: map<seq<bv8>, nat>)
  {
    ghost predicate Valid() {
      && LinkModel.Initial(placements).Valid(profiles)
      && (forall a | a in byAddr :: byAddr[a] < |placements|)
    }

    /** The node an IPv4 packet is for, none when the router drops it unread. */
    function Route(frame: seq<bv8>, src: nat): Option<nat> {
      if |frame| < 20 || frame[0] >> 4 != 4 then None
      else if frame[16..20] !in byAddr || byAddr[frame[16..20]] == src then None
      else Some(byAddr[frame[16..20]])
    }
  }

  datatype LegStats = LegStats(packets: nat, bytes: nat, dropped: nat) {
    function Add(size: nat, delivered: bool): LegStats {
      if delivered then LegStats(packets + 1, bytes + size, dropped) else LegStats(packets, bytes, dropped + 1)
    }
  }

  /** Where a reader is in its loop: before a read, before `count`, or before the channel send. */
  datatype Reader = Idle | Counting(packet: Packet, delivered: bool) | Sending(packet: Packet)

  datatype Phase = Selecting | Woken | Draining(now: int)

  /**
   The shared state. `attempts`, `accepted`, `received`, `written` and `clocks`
   record the past: every scheduled read, the packets the model accepted, the
   packets taken off the channel, and the packets written with the clock
   reading that let them go.
   */
  datatype State = State(
    model: LinkModel.State,
    readers: seq<Reader>,
    stats: map<(nat, nat), LegStats>,
    queue: seq<Packet>,
    pending: multiset<Packet>,
    phase: Phase,
    attempts: seq<(Packet, bool)>,
    accepted: seq<Packet>,
    received: seq<Packet>,
    written: seq<Packet>,
    clocks: seq<int>)
  {
    function StatsOf(leg: (nat, nat)): LegStats {
      if leg in stats then stats[leg] else LegStats(0, 0, 0)
    }
  }

  function Start(c: Config): State {
    State(LinkModel.Initial(c.placements), seq(|c.placements|, i => Idle), map[], [], multiset{}, Selecting,
          [], [], [], [], [])
  }

  datatype Step =
    | Read(src: nat, now: int, frame: seq<bv8>, draw: LinkModel.Draw)
    | Count(src: nat)
    | Send(src: nat)
    | Place(node: nat, placement: LinkModel.Placement)
    | Receive
    | TimerFires
    | ReadClock(now: int)
    | Write(packet: Packet)
    | Rest

  ghost predicate Enabled(c: Config, s: State, step: Step) {
    match step
    case Read(src, _, frame, _) => src < |s.readers| && s.readers[src].Idle? && c.Route(frame, src).Some?
    case Count(src) => src < |s.readers| && s.readers[src].Counting?
    case Send(src) => src < |s.readers| && s.readers[src].Sending? && |s.queue| < QUEUE_CAPACITY
    case Place(node, _) => node < |s.readers|
    case Receive => s.phase.Selecting? && s.queue != []
    case TimerFires => s.phase.Selecting?
    case ReadClock(_) => s.phase.Woken?
    case Write(p) => s.phase.Draining? && IsNext(p, s.pending) && p.at <= s.phase.now
    case Rest => s.phase.Draining? && forall p | p in s.pending :: p.at > s.phase.now
  }

  ghost predicate Typed(c: Config, s: State) {
    && c.Valid() && s.model.Valid(c.profiles)
    && |s.readers| == |s.model.placements| == |c.placements|
  }

  /** The reader of `src` has had `packet` scheduled by the model. */
  function Scheduled(s: State, src: nat, model: LinkModel.State, packet: Packet, delivered: bool): State
    requires src < |s.readers|
  {
    s.(model := model,
       readers := s.readers[src := Counting(packet, delivered)],
       attempts := s.attempts + [(packet, delivered)],
       accepted := if delivered then s.accepted + [packet] else s.accepted)
  }

  function Counted(s: State, src: nat): State
    requires src < |s.readers| && s.readers[src].Counting?
  {
    var Counting(packet, delivered) := s.readers[src];
    var leg := (src, packet.dst);
    s.(stats := s.stats[leg := s.StatsOf(leg).Add(|packet.data|, delivered)],
       readers := s.readers[src := if delivered then Sending(packet) else Idle])
  }

  function Sent(s: State, src: nat): State
    requires src < |s.readers| && s.readers[src].Sending?
  {
    s.(queue := s.queue + [s.readers[src].packet], readers := s.readers[src := Idle])
  }

  function Received(s: State): State
    requires s.queue != []
  {
    var p := s.queue[0].(seqNo := |s.received| + 1);
    s.(queue := s.queue[1..], received := s.received + [p], pending := s.pending + multiset{p}, phase := Woken)
  }

  function Written(s: State, p: Packet): State
    requires s.phase.Draining?
  {
    s.(pending := s.pending - multiset{p}, written := s.written + [p], clocks := s.clocks + [s.phase.now])
  }

  ghost function Do(c: Config, s: State, step: Step): (s': State)
    requires Typed(c, s) && Enabled(c, s, step)
    ensures Typed(c, s')
  {
    match step
    case Read(src, now, frame, draw) =>
      var dst := c.Route(frame, src).value;
      var (model, outcome) := LinkModel.Apply(c.profiles, s.model, LinkModel.Schedule(now, src, dst, |frame|, draw));
      var at := outcome.Arrival();
      Scheduled(s, src, model, Packet(if at.Some? then at.value else 0, 0, src, dst, frame), at.Some?)
    case Count(src) => Counted(s, src)
    case Send(src) => Sent(s, src)
    case Place(node, placement) =>
      s.(model := LinkModel.Apply(c.profiles, s.model, LinkModel.Event.Place(node, placement)).0)
    case Receive => Received(s)
    case TimerFires => s.(phase := Woken)
    case ReadClock(now) => s.(phase := Draining(now))
    case Write(p) => Written(s, p)
    case Rest => s.(phase := Selecting)
  }

  /** The state after an interleaving of steps, none when some step was not enabled. */
  ghost function Play(c: Config, s: State, steps: seq<Step>): (r: Option<State>)
    requires Typed(c, s)
    ensures r.Some? ==> Typed(c, r.value)
  {
    if steps == [] then Some(s)
    else
      var before := Play(c, s, steps[..|steps| - 1]);
      var step := steps[|steps| - 1];
      if before.Some? && Enabled(c, before.value, step) then Some(Do(c, before.value, step)) else None
  }

  // ---- One directed leg ----

  predicate OnLeg(p: Packet, leg: (nat, nat)) {
    p.src == leg.0 && p.dst == leg.1
  }

  /** The packets of `s` on `leg`, as they were read: without the number the deliverer gave them. */
  function Carried(s: seq<Packet>, leg: (nat, nat)): seq<Packet> {
    if s == [] then []
    else
      var p := s[|s| - 1];
      var earlier := Carried(s[..|s| - 1], leg);
      if OnLeg(p, leg) then earlier + [p.(seqNo := 0)] else earlier
  }

  /** The packets of `received` on `leg` that still wait in the heap, in the order they came off the channel. */
  ghost function Waiting(received: seq<Packet>, pending: multiset<Packet>, leg: (nat, nat)): seq<Packet> {
    if received == [] then []
    else
      var p := received[|received| - 1];
      var earlier := Waiting(received[..|received| - 1], pending, leg);
      if OnLeg(p, leg) && p in pending then earlier + [p.(seqNo := 0)] else earlier
  }

  /** What the reader of a leg's source has accepted and not yet sent. */
  function InHand(s: State, leg: (nat, nat)): seq<Packet> {
    if leg.0 >= |s.readers| then []
    else
      match s.readers[leg.0]
      case Idle => []
      case Counting(p, delivered) => if delivered then Carried([p], leg) else []
      case Sending(p) => Carried([p], leg)
  }

  lemma CarriedAppend(s: seq<Packet>, p: Packet, leg: (nat, nat))
    ensures Carried(s + [p], leg) == if OnLeg(p, leg) then Carried(s, leg) + [p.(seqNo := 0)] else Carried(s, leg)
  {
    assert (s + [p])[..|s|] == s;
  }

  lemma {:induction false} CarriedConcat(a: seq<Packet>, b: seq<Packet>, leg: (nat, nat))
    ensures Carried(a + b, leg) == Carried(a, leg) + Carried(b, leg)
  {
    if b == [] {
      assert a + b == a;
    } else {
      var n := |b| - 1;
      assert (a + b)[..|a| + n] == a + b[..n];
      CarriedConcat(a, b[..n], leg);
    }
  }

  lemma CarriedOne(p: Packet, leg: (nat, nat))
    ensures Carried([p], leg) == if OnLeg(p, leg) then [p.(seqNo := 0)] else []
  {
    assert [p][..0] == [] && Carried([], leg) == [];
  }

  lemma Associative<T>(a: seq<T>, b: seq<T>, c: seq<T>)
    ensures a + (b + c) == a + b + c
  {
  }

  // ---- The invariant ----

  /** Arrivals at one node are in scheduling order, and none is beyond its downlink's booking. */
  ghost predicate ArrivalsInOrder(s: State) {
    && LinkModel.LegsBelowDownlinks(s.model.links)
    && (forall p | p in s.accepted :: p.dst < |s.model.links.downFree| && p.at <= s.model.links.downFree[p.dst])
    && (forall i, j | 0 <= i < j < |s.accepted| && s.accepted[i].dst == s.accepted[j].dst ::
          s.accepted[i].at <= s.accepted[j].at)
  }

  /** A leg's accepted packets, in order, are those received, then those queued, then the one in hand. */
  ghost predicate ChannelInOrder(s: State, leg: (nat, nat)) {
    Carried(s.accepted, leg) == Carried(s.received, leg) + Carried(s.queue, leg) + InHand(s, leg)
  }

  /** A leg's received packets, in order, are those written, then those still waiting. */
  ghost predicate HeapInOrder(s: State, leg: (nat, nat)) {
    Carried(s.received, leg) == Carried(s.written, leg) + Waiting(s.received, s.pending, leg)
  }

  ghost predicate Numbered(s: State) {
    && (forall k | 0 <= k < |s.received| :: s.received[k].seqNo == k + 1)
    && (forall p | p in s.pending :: s.pending[p] == 1 && p in s.received)
  }

  ghost predicate OnTime(s: State) {
    && |s.clocks| == |s.written|
    && (forall k | 0 <= k < |s.written| :: s.written[k].at <= s.clocks[k])
  }

  ghost predicate ReadersOwnTheirPackets(s: State) {
    && |s.queue| <= QUEUE_CAPACITY
    && (forall i | 0 <= i < |s.readers| && !s.readers[i].Idle? ::
          s.readers[i].packet.src == i && s.readers[i].packet.seqNo == 0)
  }

  ghost predicate Inv(s: State) {
    && ArrivalsInOrder(s) && Numbered(s) && OnTime(s) && ReadersOwnTheirPackets(s)
    && (forall leg :: ChannelInOrder(s, leg))
    && (forall leg :: HeapInOrder(s, leg))
  }

  // ---- Every step keeps it ----

  lemma {:induction false} CarriedHas(s: seq<Packet>, i: nat, leg: (nat, nat))
    requires i < |s| && OnLeg(s[i], leg)
    ensures s[i].(seqNo := 0) in Carried(s, leg)
  {
    if i < |s| - 1 {
      CarriedHas(s[..|s| - 1], i, leg);
    }
  }

  lemma {:induction false} CarriedComesFrom(s: seq<Packet>, p: Packet, leg: (nat, nat))
    requires p in Carried(s, leg)
    ensures exists i :: 0 <= i < |s| && OnLeg(s[i], leg) && p == s[i].(seqNo := 0)
  {
    var n := |s| - 1;
    if p in Carried(s[..n], leg) {
      CarriedComesFrom(s[..n], p, leg);
      var i :| 0 <= i < n && OnLeg(s[..n][i], leg) && p == s[..n][i].(seqNo := 0);
      assert s[..n][i] == s[i];
    }
  }

  ghost predicate InTimeOrder(s: seq<Packet>) {
    forall i, j | 0 <= i < j < |s| :: s[i].at <= s[j].at
  }

  lemma {:induction false} CarriedKeepsTimeOrder(s: seq<Packet>, leg: (nat, nat))
    requires forall i, j | 0 <= i < j < |s| && s[i].dst == s[j].dst :: s[i].at <= s[j].at
    ensures InTimeOrder(Carried(s, leg))
  {
    if s != [] {
      var n := |s| - 1;
      CarriedKeepsTimeOrder(s[..n], leg);
      forall p | p in Carried(s[..n], leg) && OnLeg(s[n], leg)
        ensures p.at <= s[n].at
      {
        CarriedComesFrom(s[..n], p, leg);
      }
    }
  }

  lemma {:induction false} TimeOrderOnLeg(s: seq<Packet>, leg: (nat, nat), i: nat, j: nat)
    requires InTimeOrder(Carried(s, leg)) && i < j < |s| && OnLeg(s[i], leg) && OnLeg(s[j], leg)
    ensures s[i].at <= s[j].at
  {
    var n := |s| - 1;
    if j == n {
      CarriedHas(s[..n], i, leg);
      var a :| 0 <= a < |Carried(s[..n], leg)| && Carried(s[..n], leg)[a] == s[i].(seqNo := 0);
      assert Carried(s, leg)[a].at <= Carried(s, leg)[|Carried(s[..n], leg)|].at;
    } else {
      assert Carried(s[..n], leg) <= Carried(s, leg);
      TimeOrderOnLeg(s[..n], leg, i, j);
    }
  }

  lemma {:induction false} WaitingIgnoresNew(received: seq<Packet>, pending: multiset<Packet>, p: Packet,
                                             leg: (nat, nat))
    requires p !in received
    ensures Waiting(received, pending + multiset{p}, leg) == Waiting(received, pending, leg)
  {
    if received != [] {
      WaitingIgnoresNew(received[..|received| - 1], pending, p, leg);
    }
  }

  /** Taking out the only pending packet of a leg with nothing of its leg waiting before it takes the first. */
  lemma {:induction false} WaitingLosesFirst(received: seq<Packet>, pending: multiset<Packet>, k: nat, leg: (nat, nat))
    requires forall i, j | 0 <= i < j < |received| :: received[i] != received[j]
    requires k < |received| && pending[received[k]] == 1
    requires OnLeg(received[k], leg) ==> forall i | 0 <= i < k && OnLeg(received[i], leg) :: received[i] !in pending
    ensures Waiting(received, pending, leg)
         == (if OnLeg(received[k], leg) then [received[k].(seqNo := 0)] else [])
            + Waiting(received, pending - multiset{received[k]}, leg)
  {
    var n := |received| - 1;
    var p := received[k];
    if k < n {
      WaitingLosesFirst(received[..n], pending, k, leg);
    } else {
      WaitingIgnoresNew(received[..n], pending - multiset{p}, p, leg);
      assert (pending - multiset{p}) + multiset{p} == pending;
      if OnLeg(p, leg) {
        NoneWaiting(received[..n], pending, leg);
      }
    }
  }

  lemma {:induction false} NoneWaiting(received: seq<Packet>, pending: multiset<Packet>, leg: (nat, nat))
    requires forall i | 0 <= i < |received| && OnLeg(received[i], leg) :: received[i] !in pending
    ensures Waiting(received, pending, leg) == []
  {
    if received != [] {
      NoneWaiting(received[..|received| - 1], pending, leg);
    }
  }

  /** Booking may only move the downlinks forward, and an accepted packet arrives as its downlink frees. */
  ghost predicate MovesForward(s: State, model: LinkModel.State, packet: Packet, delivered: bool) {
    && LinkModel.LegsBelowDownlinks(model.links)
    && |s.model.links.downFree| == |model.links.downFree|
    && (forall d | 0 <= d < |s.model.links.downFree| :: s.model.links.downFree[d] <= model.links.downFree[d])
    && (delivered ==> packet.dst < |s.model.links.downFree|
                      && s.model.links.downFree[packet.dst] <= packet.at == model.links.downFree[packet.dst])
  }

  lemma ScheduledLeg(s: State, src: nat, model: LinkModel.State, p: Packet, delivered: bool, leg: (nat, nat))
    requires src < |s.readers| && s.readers[src].Idle? && p.src == src && p.seqNo == 0
    requires ChannelInOrder(s, leg) && HeapInOrder(s, leg)
    ensures ChannelInOrder(Scheduled(s, src, model, p, delivered), leg)
    ensures HeapInOrder(Scheduled(s, src, model, p, delivered), leg)
  {
    var s' := Scheduled(s, src, model, p, delivered);
    var one := if delivered then Carried([p], leg) else [];
    AcceptedGrows(s.accepted, p, delivered, leg);
    InHandScheduled(s, src, model, p, delivered, leg);
    HandGrows(Carried(s.received, leg) + Carried(s.queue, leg), InHand(s, leg), one, InHand(s', leg));
  }

  lemma AcceptedGrows(accepted: seq<Packet>, p: Packet, delivered: bool, leg: (nat, nat))
    ensures Carried(if delivered then accepted + [p] else accepted, leg)
         == Carried(accepted, leg) + if delivered then Carried([p], leg) else []
    ensures !OnLeg(p, leg) ==> Carried([p], leg) == []
  {
    CarriedOne(p, leg);
    if delivered {
      CarriedConcat(accepted, [p], leg);
    } else {
      assert Carried(accepted, leg) + [] == Carried(accepted, leg);
    }
  }

  lemma HandGrows<T>(before: seq<T>, hand: seq<T>, one: seq<T>, after: seq<T>)
    requires (hand == [] && after == one) || (one == [] && after == hand)
    ensures before + hand + one == before + after
  {
  }

  lemma InHandScheduled(s: State, src: nat, model: LinkModel.State, p: Packet, delivered: bool, leg: (nat, nat))
    requires src < |s.readers| && s.readers[src].Idle? && p.src == src
    ensures leg.0 == src ==> InHand(s, leg) == []
    ensures InHand(Scheduled(s, src, model, p, delivered), leg)
         == if leg.0 == src && delivered then Carried([p], leg) else InHand(s, leg)
  {
  }

  lemma ScheduledKeepsInv(s: State, src: nat, model: LinkModel.State, p: Packet, delivered: bool)
    requires src < |s.readers| && s.readers[src].Idle? && p.src == src && p.seqNo == 0
    requires Inv(s) && MovesForward(s, model, p, delivered)
    ensures Inv(Scheduled(s, src, model, p, delivered))
  {
    var s' := Scheduled(s, src, model, p, delivered);
    assert ArrivalsInOrder(s');
    forall leg
      ensures ChannelInOrder(s', leg) && HeapInOrder(s', leg)
    {
      assert ChannelInOrder(s, leg) && HeapInOrder(s, leg);
      ScheduledLeg(s, src, model, p, delivered, leg);
    }
  }

  lemma SentLeg(s: State, src: nat, leg: (nat, nat))
    requires src < |s.readers| && s.readers[src].Sending? && s.readers[src].packet.src == src
    requires ChannelInOrder(s, leg) && HeapInOrder(s, leg)
    ensures ChannelInOrder(Sent(s, src), leg) && HeapInOrder(Sent(s, src), leg)
  {
    var p := s.readers[src].packet;
    CarriedConcat(s.queue, [p], leg);
    CarriedOne(p, leg);
    InHandSent(s, src, leg);
    HandedOver(Carried(s.received, leg), Carried(s.queue, leg), Carried([p], leg), InHand(s, leg),
               InHand(Sent(s, src), leg));
  }

  lemma InHandSent(s: State, src: nat, leg: (nat, nat))
    requires src < |s.readers| && s.readers[src].Sending? && s.readers[src].packet.src == src
    ensures leg.0 == src ==> InHand(s, leg) == Carried([s.readers[src].packet], leg)
    ensures InHand(Sent(s, src), leg) == if leg.0 == src then [] else InHand(s, leg)
  {
  }

  lemma HandedOver<T>(received: seq<T>, queue: seq<T>, one: seq<T>, before: seq<T>, after: seq<T>)
    requires (before == one && after == []) || (one == [] && before == after)
    ensures received + (queue + one) + after == received + queue + before
  {
  }

  lemma SentKeepsInv(s: State, src: nat)
    requires src < |s.readers| && s.readers[src].Sending? && |s.queue| < QUEUE_CAPACITY && Inv(s)
    ensures Inv(Sent(s, src))
  {
    forall leg
      ensures ChannelInOrder(Sent(s, src), leg) && HeapInOrder(Sent(s, src), leg)
    {
      assert ChannelInOrder(s, leg) && HeapInOrder(s, leg);
      SentLeg(s, src, leg);
    }
  }

  lemma MoveFirst(received: seq<Packet>, queue: seq<Packet>, number: nat, leg: (nat, nat))
    requires queue != []
    ensures Carried(received + [queue[0].(seqNo := number)], leg) + Carried(queue[1..], leg)
         == Carried(received, leg) + Carried(queue, leg)
  {
    var first, rest := queue[0], queue[1..];
    var moved := first.(seqNo := number);
    assert [first] + rest == queue;
    CarriedOne(first, leg);
    CarriedOne(moved, leg);
    CarriedConcat(received, [moved], leg);
    CarriedConcat([first], rest, leg);
    Associative(Carried(received, leg), Carried([first], leg), Carried(rest, leg));
  }

  lemma ReceivedChannel(s: State, leg: (nat, nat))
    requires s.queue != [] && ChannelInOrder(s, leg)
    ensures ChannelInOrder(Received(s), leg)
  {
    MoveFirst(s.received, s.queue, |s.received| + 1, leg);
  }

  lemma ReceivedHeap(s: State, leg: (nat, nat))
    requires s.queue != [] && s.queue[0].(seqNo := |s.received| + 1) !in s.received
    requires HeapInOrder(s, leg)
    ensures HeapInOrder(Received(s), leg)
  {
    var p := s.queue[0].(seqNo := |s.received| + 1);
    assert (s.received + [p])[..|s.received|] == s.received;
    CarriedAppend(s.received, p, leg);
    WaitingIgnoresNew(s.received, s.pending, p, leg);
  }

  lemma ReceivedKeepsInv(s: State)
    requires s.queue != [] && Inv(s)
    ensures Inv(Received(s))
  {
    assert Numbered(Received(s));
    forall leg
      ensures ChannelInOrder(Received(s), leg) && HeapInOrder(Received(s), leg)
    {
      assert ChannelInOrder(s, leg) && HeapInOrder(s, leg);
      ReceivedChannel(s, leg);
      ReceivedHeap(s, leg);
    }
  }

  /** Of one leg, only packets received later can still be waiting when the heap yields `received[k]`. */
  lemma NothingBeforeNext(s: State, k: nat, i: nat, leg: (nat, nat))
    requires ArrivalsInOrder(s) && Numbered(s) && ChannelInOrder(s, leg)
    requires i < k < |s.received| && IsNext(s.received[k], s.pending)
    requires OnLeg(s.received[i], leg) && OnLeg(s.received[k], leg)
    ensures s.received[i] !in s.pending
  {
    CarriedKeepsTimeOrder(s.accepted, leg);
    assert Carried(s.received, leg) <= Carried(s.accepted, leg);
    TimeOrderOnLeg(s.received, leg, i, k);
    assert s.received[i].at <= s.received[k].at && s.received[i].seqNo < s.received[k].seqNo;
  }

  lemma WrittenLeg(s: State, k: nat, leg: (nat, nat))
    requires ArrivalsInOrder(s) && Numbered(s) && ChannelInOrder(s, leg) && HeapInOrder(s, leg)
    requires s.phase.Draining? && k < |s.received| && IsNext(s.received[k], s.pending)
    ensures ChannelInOrder(Written(s, s.received[k]), leg) && HeapInOrder(Written(s, s.received[k]), leg)
  {
    var p := s.received[k];
    forall i | OnLeg(p, leg) && 0 <= i < k && OnLeg(s.received[i], leg)
      ensures s.received[i] !in s.pending
    {
      NothingBeforeNext(s, k, i, leg);
    }
    WaitingLosesFirst(s.received, s.pending, k, leg);
    WrittenHeap(s, p, leg);
  }

  lemma WrittenHeap(s: State, p: Packet, leg: (nat, nat))
    requires s.phase.Draining? && ChannelInOrder(s, leg) && HeapInOrder(s, leg)
    requires var without := Waiting(s.received, s.pending - multiset{p}, leg);
             Waiting(s.received, s.pending, leg) == (if OnLeg(p, leg) then [p.(seqNo := 0)] else []) + without
    ensures ChannelInOrder(Written(s, p), leg) && HeapInOrder(Written(s, p), leg)
  {
    var without := Waiting(s.received, s.pending - multiset{p}, leg);
    CarriedConcat(s.written, [p], leg);
    CarriedOne(p, leg);
    Associative(Carried(s.written, leg), Carried([p], leg), without);
  }

  lemma WrittenKeepsInv(s: State, p: Packet)
    requires Inv(s) && s.phase.Draining? && IsNext(p, s.pending) && p.at <= s.phase.now
    ensures Inv(Written(s, p))
  {
    var k :| 0 <= k < |s.received| && s.received[k] == p;
    assert OnTime(Written(s, p));
    forall leg
      ensures ChannelInOrder(Written(s, p), leg) && HeapInOrder(Written(s, p), leg)
    {
      assert ChannelInOrder(s, leg) && HeapInOrder(s, leg);
      WrittenLeg(s, k, leg);
    }
  }

  /** Steps that move no packet. */
  lemma StillKeepsInv(s: State, s': State)
    requires Inv(s) && s'.queue == s.queue && s'.pending == s.pending && s'.accepted == s.accepted
    requires s'.received == s.received && s'.written == s.written && s'.clocks == s.clocks
    requires |s'.readers| == |s.readers| && ReadersOwnTheirPackets(s') && ArrivalsInOrder(s')
    requires forall leg :: InHand(s', leg) == InHand(s, leg)
    ensures Inv(s')
  {
    forall leg
      ensures ChannelInOrder(s', leg) && HeapInOrder(s', leg)
    {
      assert ChannelInOrder(s, leg) && HeapInOrder(s, leg);
    }
  }

  lemma ReadKeepsInv(c: Config, s: State, step: Step)
    requires Typed(c, s) && Inv(s) && step.Read? && Enabled(c, s, step)
    ensures Inv(Do(c, s, step))
  {
    var Read(src, now, frame, draw) := step;
    var dst := c.Route(frame, src).value;
    var e := LinkModel.Schedule(now, src, dst, |frame|, draw);
    LinkModel.ApplyMovesForward(c.profiles, s.model, e);
    var (model, outcome) := LinkModel.Apply(c.profiles, s.model, e);
    var at := outcome.Arrival();
    ScheduledKeepsInv(s, src, model, Packet(if at.Some? then at.value else 0, 0, src, dst, frame), at.Some?);
  }

  lemma StepKeepsInv(c: Config, s: State, step: Step)
    requires Typed(c, s) && Inv(s) && Enabled(c, s, step)
    ensures Inv(Do(c, s, step))
  {
    match step
    case Read(_, _, _, _) => ReadKeepsInv(c, s, step);
    case Send(src) => SentKeepsInv(s, src);
    case Receive => ReceivedKeepsInv(s);
    case Write(p) => WrittenKeepsInv(s, p);
    case Place(node, placement) =>
      LinkModel.ApplyMovesForward(c.profiles, s.model, LinkModel.Event.Place(node, placement));
      StillKeepsInv(s, Do(c, s, step));
    case _ => StillKeepsInv(s, Do(c, s, step));
  }

  lemma {:induction false} PlayKeepsInv(c: Config, steps: seq<Step>)
    requires c.Valid() && Play(c, Start(c), steps).Some?
    ensures Inv(Play(c, Start(c), steps).value)
  {
    if steps != [] {
      var before := steps[..|steps| - 1];
      PlayKeepsInv(c, before);
      StepKeepsInv(c, Play(c, Start(c), before).value, steps[|steps| - 1]);
    }
  }

  // ---- What every interleaving guarantees ----

  /**
   On every leg, at every moment, the packets the model accepted are, in the
   order they were read, those written, those waiting in the heap, those in the
   channel and the one in the reader's hand: none is lost, doubled or overtaken.
   */
  lemma {:induction false} EveryLegIsAPipeline(c: Config, steps: seq<Step>, leg: (nat, nat))
    requires c.Valid() && Play(c, Start(c), steps).Some?
    ensures var s := Play(c, Start(c), steps).value;
            && Carried(s.accepted, leg)
               == Carried(s.written, leg) + Waiting(s.received, s.pending, leg) + Carried(s.queue, leg) + InHand(s, leg)
            && Carried(s.written, leg) <= Carried(s.accepted, leg)
  {
    PlayKeepsInv(c, steps);
    var s := Play(c, Start(c), steps).value;
    assert ChannelInOrder(s, leg) && HeapInOrder(s, leg);
  }

  /** No packet is written before its time, and the channel never holds more than its capacity. */
  lemma {:induction false} NothingIsEarly(c: Config, steps: seq<Step>, k: nat)
    requires c.Valid() && Play(c, Start(c), steps).Some? && k < |Play(c, Start(c), steps).value.written|
    ensures var s := Play(c, Start(c), steps).value;
            |s.clocks| == |s.written| && s.written[k].at <= s.clocks[k] && |s.queue| <= QUEUE_CAPACITY
  {
    PlayKeepsInv(c, steps);
  }

  /** Once every reader is idle and the channel and the heap are empty, a leg has delivered all it accepted. */
  lemma {:induction false} QuietMeansDelivered(c: Config, steps: seq<Step>, leg: (nat, nat))
    requires c.Valid() && Play(c, Start(c), steps).Some?
    requires var s := Play(c, Start(c), steps).value;
             (leg.0 < |s.readers| ==> s.readers[leg.0].Idle?) && s.queue == [] && s.pending == multiset{}
    ensures var s := Play(c, Start(c), steps).value;
            Carried(s.written, leg) == Carried(s.accepted, leg)
  {
    EveryLegIsAPipeline(c, steps, leg);
    var s := Play(c, Start(c), steps).value;
    NoneWaiting(s.received, s.pending, leg);
  }

  // ---- Where frames go ----

  /** The fixed 20 bytes of an IPv4 header, section 3.1 of RFC 791: `middle` is all that stands before the source. */
  datatype Header = Header(version: bv8, ihl: bv8, middle: seq<bv8>, source: seq<bv8>, destination: seq<bv8>) {
    predicate Valid() {
      version < 16 && ihl < 16 && |middle| == 11 && |source| == 4 && |destination| == 4
    }

    function Bytes(): seq<bv8>
      requires Valid()
    {
      [(version << 4) | ihl] + middle + source + destination
    }
  }

  lemma HeaderParts(h: Header, payload: seq<bv8>)
    requires h.Valid()
    ensures var frame := h.Bytes() + payload;
            |frame| >= 20 && frame[0] == (h.version << 4) | h.ihl && frame[16..20] == h.destination
  {
  }

  lemma HighAndLow(b: bv8)
    ensures b >> 4 < 16 && b & 15 < 16 && ((b >> 4) << 4) | (b & 15) == b
  {
  }

  lemma VersionIsHighBits(version: bv8, ihl: bv8)
    requires version < 16 && ihl < 16
    ensures ((version << 4) | ihl) >> 4 == version
  {
  }

  /**
   A frame goes to the node its header's destination is the address of, whatever its source
   address and payload, and nowhere when its version is another, when no node has that
   address, or when it is the reader's own.
   */
  lemma {:induction false} RouteIsByDestination(c: Config, src: nat, h: Header, payload: seq<bv8>)
    requires h.Valid()
    ensures c.Route(h.Bytes() + payload, src)
         == if h.version == 4 && h.destination in c.byAddr && c.byAddr[h.destination] != src then
              Some(c.byAddr[h.destination])
            else None
  {
    HeaderParts(h, payload);
    VersionIsHighBits(h.version, h.ihl);
  }

  /** What is no frame with a header goes nowhere, and every other is one with a header. */
  lemma {:induction false} FramesHaveHeaders(c: Config, src: nat, frame: seq<bv8>)
    returns (h: Header, payload: seq<bv8>)
    ensures |frame| < 20 ==> c.Route(frame, src) == None
    ensures |frame| >= 20 ==> h.Valid() && frame == h.Bytes() + payload
  {
    if |frame| < 20 {
      h, payload := Header(0, 0, [], [], []), [];
    } else {
      h := Header(frame[0] >> 4, frame[0] & 15, frame[1..12], frame[12..16], frame[16..20]);
      payload := frame[20..];
      HighAndLow(frame[0]);
      assert frame == [frame[0]] + frame[1..12] + frame[12..16] + frame[16..20] + frame[20..];
    }
  }

  predicate IsRouted(c: Config, p: Packet) {
    c.Route(p.data, p.src) == Some(p.dst)
  }

  ghost predicate AllRouted(c: Config, s: State) {
    && (forall p | p in s.accepted :: IsRouted(c, p))
    && (forall i | 0 <= i < |s.readers| && !s.readers[i].Idle? :: IsRouted(c, s.readers[i].packet))
    && (forall p | p in s.queue :: IsRouted(c, p))
    && (forall p | p in s.received :: IsRouted(c, p))
    && (forall p | p in s.written :: IsRouted(c, p))
  }

  lemma StepKeepsRouted(c: Config, s: State, step: Step)
    requires Typed(c, s) && Enabled(c, s, step) && Inv(s) && AllRouted(c, s)
    ensures AllRouted(c, Do(c, s, step))
  {
    match step
    case Read(_, _, _, _) => ReadKeepsRouted(c, s, step);
    case Receive => ReceivedKeepsRouted(c, s);
    case Write(p) => assert p in s.pending && p in s.received;
    case _ =>
  }

  lemma ReadKeepsRouted(c: Config, s: State, step: Step)
    requires Typed(c, s) && Enabled(c, s, step) && AllRouted(c, s) && step.Read?
    ensures AllRouted(c, Do(c, s, step))
  {
  }

  lemma ReceivedKeepsRouted(c: Config, s: State)
    requires s.queue != [] && AllRouted(c, s)
    ensures AllRouted(c, Received(s))
  {
    var p := s.queue[0].(seqNo := |s.received| + 1);
    assert s.queue[0] in s.queue && IsRouted(c, p);
  }

  lemma {:induction false} PlayKeepsRouted(c: Config, steps: seq<Step>)
    requires c.Valid() && Play(c, Start(c), steps).Some?
    ensures AllRouted(c, Play(c, Start(c), steps).value)
  {
    if steps != [] {
      var before := steps[..|steps| - 1];
      PlayKeepsRouted(c, before);
      PlayKeepsInv(c, before);
      StepKeepsRouted(c, Play(c, Start(c), before).value, steps[|steps| - 1]);
    }
  }

  /**
   Over every interleaving, whatever was accepted, and whatever was written, was built with
   version 4 and with the address of the node it goes to as its destination.
   */
  lemma {:induction false} DeliveredWhereAddressed(c: Config, steps: seq<Step>, p: Packet, h: Header, payload: seq<bv8>)
    requires c.Valid() && Play(c, Start(c), steps).Some?
    requires p in Play(c, Start(c), steps).value.accepted || p in Play(c, Start(c), steps).value.written
    requires h.Valid() && p.data == h.Bytes() + payload
    ensures h.version == 4 && h.destination in c.byAddr && p.dst == c.byAddr[h.destination] && p.dst != p.src
  {
    PlayKeepsRouted(c, steps);
    RouteIsByDestination(c, p.src, h, payload);
  }

  // ---- The scheduler's runs ----

  /** What the steps of a run ask of the scheduler: each read with the size of its frame, and each move. */
  function EventsOf(c: Config, steps: seq<Step>): seq<LinkModel.Event> {
    if steps == [] then []
    else
      EventsOf(c, steps[..|steps| - 1])
      + match steps[|steps| - 1]
        case Read(src, now, frame, draw) =>
          (match c.Route(frame, src)
           case Some(dst) => [LinkModel.Schedule(now, src, dst, |frame|, draw)]
           case None => [])
        case Place(node, placement) => [LinkModel.Event.Place(node, placement)]
        case _ => []
  }

  /** From where to where, and when. */
  function Stamps(ps: seq<Packet>): seq<(nat, nat, int)> {
    if ps == [] then []
    else
      var p := ps[|ps| - 1];
      Stamps(ps[..|ps| - 1]) + [(p.src, p.dst, p.at)]
  }

  function Arrivals(log: seq<LinkModel.Passage>): seq<(nat, nat, int)> {
    if log == [] then []
    else
      var x := log[|log| - 1];
      Arrivals(log[..|log| - 1]) + if x.at.Some? then [(x.src, x.dst, x.at.value)] else []
  }

  ghost predicate Follows(c: Config, s: State, es: seq<LinkModel.Event>)
    requires c.Valid()
  {
    && LinkModel.Playable(c.profiles, c.placements, es)
    && var (model, log) := LinkModel.Run(c.profiles, LinkModel.Initial(c.placements), es);
       s.model == model && Stamps(s.accepted) == Arrivals(log)
  }

  lemma ArrivesOnce(s: State, src: nat, model: LinkModel.State, p: Packet, delivered: bool,
                    log: seq<LinkModel.Passage>, outcome: LinkModel.Outcome)
    requires src < |s.readers| && Stamps(s.accepted) == Arrivals(log)
    requires delivered == outcome.Arrival().Some? && (delivered ==> p.at == outcome.Arrival().value)
    requires outcome.Crossed? ==> p.src == outcome.passage.src && p.dst == outcome.passage.dst
    ensures Stamps(Scheduled(s, src, model, p, delivered).accepted) == Arrivals(LinkModel.Logged(log, outcome))
  {
    if outcome.Crossed? {
      assert (log + [outcome.passage])[..|log|] == log;
      assert Arrivals(log) + [] == Arrivals(log);
    }
    assert (s.accepted + [p])[..|s.accepted|] == s.accepted;
  }

  lemma ApplyNames(p: LinkModel.Profiles, s: LinkModel.State, e: LinkModel.Event)
    requires s.Valid(p) && e.Names(|s.placements|) && e.Schedule? && LinkModel.Apply(p, s, e).1.Crossed?
    ensures LinkModel.Apply(p, s, e).1.passage.src == e.src && LinkModel.Apply(p, s, e).1.passage.dst == e.dst
  {
  }

  lemma ReadFollows(c: Config, s: State, es: seq<LinkModel.Event>, step: Step)
    requires Typed(c, s) && Follows(c, s, es) && step.Read? && Enabled(c, s, step)
    ensures var dst := c.Route(step.frame, step.src).value;
            var e := LinkModel.Schedule(step.now, step.src, dst, |step.frame|, step.draw);
            Follows(c, Do(c, s, step), es + [e])
  {
    var Read(src, now, frame, draw) := step;
    var dst := c.Route(frame, src).value;
    var e := LinkModel.Schedule(now, src, dst, |frame|, draw);
    LinkModel.RunOneMore(c.profiles, LinkModel.Initial(c.placements), es, e);
    var log := LinkModel.Run(c.profiles, LinkModel.Initial(c.placements), es).1;
    var (model, outcome) := LinkModel.Apply(c.profiles, s.model, e);
    var at := outcome.Arrival();
    if outcome.Crossed? {
      ApplyNames(c.profiles, s.model, e);
    }
    var p := Packet(if at.Some? then at.value else 0, 0, src, dst, frame);
    ArrivesOnce(s, src, model, p, at.Some?, log, outcome);
  }

  lemma PlaceFollows(c: Config, s: State, es: seq<LinkModel.Event>, step: Step)
    requires Typed(c, s) && Follows(c, s, es) && step.Place? && Enabled(c, s, step)
    ensures Follows(c, Do(c, s, step), es + [LinkModel.Event.Place(step.node, step.placement)])
  {
    var e := LinkModel.Event.Place(step.node, step.placement);
    LinkModel.RunOneMore(c.profiles, LinkModel.Initial(c.placements), es, e);
  }

  /**
   Over every interleaving, the model the readers share has run what the scheduler's theorems
   are about, each read with its frame's size and in the order of the reads, and every packet
   accepted has the arrival the model gave it.
   */
  lemma {:induction false} RouterRunsTheModel(c: Config, steps: seq<Step>)
    requires c.Valid() && Play(c, Start(c), steps).Some?
    ensures var s, es := Play(c, Start(c), steps).value, EventsOf(c, steps);
            && LinkModel.Playable(c.profiles, c.placements, es)
            && s.model == LinkModel.Run(c.profiles, LinkModel.Initial(c.placements), es).0
            && Stamps(s.accepted) == Arrivals(LinkModel.Log(c.profiles, c.placements, es))
  {
    if steps != [] {
      var before, step := steps[..|steps| - 1], steps[|steps| - 1];
      RouterRunsTheModel(c, before);
      var s := Play(c, Start(c), before).value;
      StepFollows(c, s, EventsOf(c, before), step, EventsOf(c, steps));
    }
  }

  lemma StepFollows(c: Config, s: State, es: seq<LinkModel.Event>, step: Step, es': seq<LinkModel.Event>)
    requires Typed(c, s) && Follows(c, s, es) && Enabled(c, s, step)
    requires match step
             case Read(src, now, frame, draw) =>
               es' == es + [LinkModel.Schedule(now, src, c.Route(frame, src).value, |frame|, draw)]
             case Place(node, placement) => es' == es + [LinkModel.Event.Place(node, placement)]
             case _ => es' == es + []
    ensures Follows(c, Do(c, s, step), es')
  {
    match step
    case Read(_, _, _, _) => ReadFollows(c, s, es, step);
    case Place(_, _) => PlaceFollows(c, s, es, step);
    case _ => assert es + [] == es;
  }

  /** What `count` should have recorded for a leg after these reads. */
  function Tally(attempts: seq<(Packet, bool)>, leg: (nat, nat)): LegStats {
    if attempts == [] then LegStats(0, 0, 0)
    else
      var (p, delivered) := attempts[|attempts| - 1];
      var earlier := Tally(attempts[..|attempts| - 1], leg);
      if OnLeg(p, leg) then earlier.Add(|p.data|, delivered) else earlier
  }

  function DeliveredOf(attempts: seq<(Packet, bool)>): seq<Packet> {
    if attempts == [] then []
    else
      var (p, delivered) := attempts[|attempts| - 1];
      var earlier := DeliveredOf(attempts[..|attempts| - 1]);
      if delivered then earlier + [p] else earlier
  }

  /** A leg's counters, with the packet its reader is about to count. */
  ghost function CountedSoFar(s: State, leg: (nat, nat)): LegStats {
    if leg.0 < |s.readers| && s.readers[leg.0].Counting? && OnLeg(s.readers[leg.0].packet, leg) then
      s.StatsOf(leg).Add(|s.readers[leg.0].packet.data|, s.readers[leg.0].delivered)
    else
      s.StatsOf(leg)
  }

  /** Every read is counted exactly once, as carried or as dropped, with its bytes when carried. */
  lemma {:induction false} StatsAddUp(c: Config, steps: seq<Step>, leg: (nat, nat))
    requires c.Valid() && Play(c, Start(c), steps).Some?
    ensures var s := Play(c, Start(c), steps).value;
            AddsUp(s, leg)
  {
    if steps != [] {
      var before, step := steps[..|steps| - 1], steps[|steps| - 1];
      StatsAddUp(c, before, leg);
      PlayKeepsInv(c, before);
      StepAddsUp(c, Play(c, Start(c), before).value, step, leg);
    }
  }

  /** The packets of a leg whose reads ended this way. */
  function OfLeg(attempts: seq<(Packet, bool)>, leg: (nat, nat), delivered: bool): seq<Packet> {
    if attempts == [] then []
    else
      var (p, d) := attempts[|attempts| - 1];
      OfLeg(attempts[..|attempts| - 1], leg, delivered)
      + if p.src == leg.0 && p.dst == leg.1 && d == delivered then [p] else []
  }

  function BytesOf(ps: seq<Packet>): nat {
    if ps == [] then 0 else BytesOf(ps[..|ps| - 1]) + |ps[|ps| - 1].data|
  }

  lemma {:induction false} TallyIsCounts(attempts: seq<(Packet, bool)>, leg: (nat, nat))
    ensures var carried, dropped := OfLeg(attempts, leg, true), OfLeg(attempts, leg, false);
            Tally(attempts, leg) == LegStats(|carried|, BytesOf(carried), |dropped|)
  {
    if attempts != [] {
      var n := |attempts| - 1;
      TallyIsCounts(attempts[..n], leg);
      var carried, p := OfLeg(attempts[..n], leg, true), attempts[n].0;
      assert (carried + [p])[..|carried|] == carried && carried + [] == carried;
    }
  }

  /**
   While its source's reader is not about to count, a leg's counters are the numbers of packets
   of the leg that were carried and that were dropped, and the bytes of those carried.
   */
  lemma {:induction false} StatsAreCounts(c: Config, steps: seq<Step>, leg: (nat, nat))
    requires c.Valid() && Play(c, Start(c), steps).Some?
    requires var s := Play(c, Start(c), steps).value; leg.0 < |s.readers| ==> !s.readers[leg.0].Counting?
    ensures var s := Play(c, Start(c), steps).value;
            var carried, dropped := OfLeg(s.attempts, leg, true), OfLeg(s.attempts, leg, false);
            s.StatsOf(leg) == LegStats(|carried|, BytesOf(carried), |dropped|)
  {
    StatsAddUp(c, steps, leg);
    TallyIsCounts(Play(c, Start(c), steps).value.attempts, leg);
  }

  ghost predicate AddsUp(s: State, leg: (nat, nat)) {
    CountedSoFar(s, leg) == Tally(s.attempts, leg) && s.accepted == DeliveredOf(s.attempts)
  }

  lemma ScheduledAddsUp(s: State, src: nat, model: LinkModel.State, packet: Packet, delivered: bool, leg: (nat, nat))
    requires src < |s.readers| && s.readers[src].Idle? && packet.src == src && AddsUp(s, leg)
    ensures AddsUp(Scheduled(s, src, model, packet, delivered), leg)
  {
    OneAttemptMore(s.attempts, packet, delivered, leg);
  }

  lemma OneAttemptMore(attempts: seq<(Packet, bool)>, p: Packet, delivered: bool, leg: (nat, nat))
    ensures Tally(attempts + [(p, delivered)], leg)
         == if OnLeg(p, leg) then Tally(attempts, leg).Add(|p.data|, delivered) else Tally(attempts, leg)
    ensures DeliveredOf(attempts + [(p, delivered)]) == DeliveredOf(attempts) + if delivered then [p] else []
  {
    assert (attempts + [(p, delivered)])[..|attempts|] == attempts;
    assert DeliveredOf(attempts) + [] == DeliveredOf(attempts);
  }

  lemma CountedAddsUp(s: State, src: nat, leg: (nat, nat))
    requires src < |s.readers| && s.readers[src].Counting? && s.readers[src].packet.src == src && AddsUp(s, leg)
    ensures AddsUp(Counted(s, src), leg)
  {
  }

  lemma StepAddsUp(c: Config, s: State, step: Step, leg: (nat, nat))
    requires Typed(c, s) && Enabled(c, s, step) && Inv(s) && AddsUp(s, leg)
    ensures AddsUp(Do(c, s, step), leg)
  {
    match step
    case Read(src, now, frame, draw) =>
      var dst := c.Route(frame, src).value;
      var (model, outcome) := LinkModel.Apply(c.profiles, s.model, LinkModel.Schedule(now, src, dst, |frame|, draw));
      var at := outcome.Arrival();
      ScheduledAddsUp(s, src, model, Packet(if at.Some? then at.value else 0, 0, src, dst, frame), at.Some?, leg);
    case Count(src) => CountedAddsUp(s, src, leg);
    case Send(src) => StillAddsUp(s, Sent(s, src), leg);
    case Place(_, _) => StillAddsUp(s, Do(c, s, step), leg);
    case Write(p) => StillAddsUp(s, Written(s, p), leg);
    case _ =>
  }

  lemma StillAddsUp(s: State, s': State, leg: (nat, nat))
    requires AddsUp(s, leg) && s'.attempts == s.attempts && s'.accepted == s.accepted && s'.stats == s.stats
    requires |s'.readers| == |s.readers|
    requires forall i | 0 <= i < |s.readers| ::
               s'.readers[i] == s.readers[i] || (s'.readers[i].Idle? && s.readers[i].Sending?)
    ensures AddsUp(s', leg)
  {
  }

  // ---- The deliverer as a loop over its heap ----

  /** Emptying `bag` of everything due by `now`, in heap order, writes `out` and leaves `rest`. */
  ghost predicate Drains(bag: multiset<Packet>, now: int, out: seq<Packet>, rest: multiset<Packet>)
    decreases |out|
  {
    if out == [] then rest == bag && forall p | p in bag :: p.at > now
    else IsNext(out[0], bag) && out[0].at <= now && Drains(bag - multiset{out[0]}, now, out[1..], rest)
  }

  /** What the heap holds once the wake-up's packet, if any, is numbered and pushed. */
  ghost function Loaded(bag: multiset<Packet>, seqNo: nat, arrival: Option<Packet>): multiset<Packet> {
    if arrival.Some? then bag + multiset{arrival.value.(seqNo := seqNo + 1)} else bag
  }

  ghost predicate Popping(bag: multiset<Packet>, now: int, out: seq<Packet>, rest: multiset<Packet>)
    decreases |out|
  {
    if out == [] then rest == bag
    else IsNext(out[0], bag) && out[0].at <= now && Popping(bag - multiset{out[0]}, now, out[1..], rest)
  }

  lemma {:induction false} PoppingOneMore(bag: multiset<Packet>, now: int, out: seq<Packet>,
                                          rest: multiset<Packet>, p: Packet)
    requires Popping(bag, now, out, rest) && IsNext(p, rest) && p.at <= now
    ensures Popping(bag, now, out + [p], rest - multiset{p})
  {
    if out != [] {
      PoppingOneMore(bag - multiset{out[0]}, now, out[1..], rest, p);
      assert (out + [p])[1..] == out[1..] + [p];
    }
  }

  lemma {:induction false} PoppingDrains(bag: multiset<Packet>, now: int, out: seq<Packet>, rest: multiset<Packet>)
    requires Popping(bag, now, out, rest) && forall p | p in rest :: p.at > now
    ensures Drains(bag, now, out, rest)
  {
    if out != [] {
      PoppingDrains(bag - multiset{out[0]}, now, out[1..], rest);
    }
  }

  /** When the root of a heap is not due, nothing in it is. */
  lemma NothingDue(items: seq<Packet>, now: int)
    requires Ordered(items) && (items == [] || items[0].at > now)
    ensures forall p | p in multiset(items) :: p.at > now
  {
    forall p | p in multiset(items)
      ensures p.at > now
    {
      var i :| 0 <= i < |items| && items[i] == p;
      RootIsNext(items, i);
    }
  }

  class Deliverer {
    const heap: Heap
    var seqNo: nat

    ghost predicate Valid()
      reads this, heap
    {
      heap.Valid()
    }

    constructor ()
      ensures Valid() && fresh(heap) && heap.Bag() == multiset{} && seqNo == 0
    {
      heap := new Heap();
      seqNo := 0;
    }

    /** One turn of the loop: the select, the clock reading, and the writes; none is the timer. */
    method Turn(arrival: Option<Packet>, now: int) returns (out: seq<Packet>)
      requires Valid()
      modifies this, heap
      ensures Valid()
      ensures seqNo == old(seqNo) + if arrival.Some? then 1 else 0
      ensures Drains(Loaded(old(heap.Bag()), old(seqNo), arrival), now, out, heap.Bag())
    {
      if arrival.Some? {
        seqNo := seqNo + 1;
        heap.Push(arrival.value.(seqNo := seqNo));
      }
      out := Drain(now);
    }

    /** Writes everything that is due, in heap order. */
    method Drain(now: int) returns (out: seq<Packet>)
      requires Valid()
      modifies heap
      ensures Valid() && Drains(old(heap.Bag()), now, out, heap.Bag())
    {
      ghost var bag := heap.Bag();
      out := [];
      while heap.items != [] && heap.items[0].at <= now
        invariant Valid() && Popping(bag, now, out, heap.Bag())
        decreases |heap.items|
      {
        ghost var before := heap.Bag();
        var p := heap.Pop();
        PoppingOneMore(bag, now, out, before, p);
        out := out + [p];
      }
      NothingDue(heap.items, now);
      PoppingDrains(bag, now, out, heap.Bag());
    }
  }

  function Writes(out: seq<Packet>): seq<Step> {
    seq(|out|, i requires 0 <= i < |out| => Write(out[i]))
  }

  function Repeated(now: int, n: nat): seq<int> {
    seq(n, i => now)
  }

  /** One more step, without looking into the step. */
  lemma PlayOneMore(c: Config, s: State, steps: seq<Step>, step: Step)
    requires Typed(c, s)
    ensures Play(c, s, steps + [step])
         == var before := Play(c, s, steps);
            if before.Some? && Enabled(c, before.value, step) then Some(Do(c, before.value, step)) else None
  {
    assert (steps + [step])[..|steps|] == steps;
  }

  lemma PlayWrite(c: Config, s: State, steps: seq<Step>, s1: State, p: Packet)
    requires Typed(c, s) && Play(c, s, steps) == Some(s1) && Enabled(c, s1, Write(p))
    ensures Play(c, s, steps + [Write(p)]) == Some(Written(s1, p))
  {
    PlayOneMore(c, s, steps, Write(p));
  }

  lemma PlayWake(c: Config, s: State, steps: seq<Step>, s1: State, receives: bool)
    requires Typed(c, s) && Play(c, s, steps) == Some(s1) && s1.phase.Selecting? && (receives ==> s1.queue != [])
    ensures Play(c, s, steps + [if receives then Receive else TimerFires])
         == Some(if receives then Received(s1) else s1.(phase := Woken))
  {
    PlayOneMore(c, s, steps, if receives then Receive else TimerFires);
  }

  lemma PlayClock(c: Config, s: State, steps: seq<Step>, s1: State, now: int)
    requires Typed(c, s) && Play(c, s, steps) == Some(s1) && s1.phase.Woken?
    ensures Play(c, s, steps + [ReadClock(now)]) == Some(s1.(phase := Draining(now)))
  {
    PlayOneMore(c, s, steps, ReadClock(now));
  }

  lemma PlayRest(c: Config, s: State, steps: seq<Step>, s1: State)
    requires Typed(c, s) && Play(c, s, steps) == Some(s1) && Enabled(c, s1, Rest)
    ensures Play(c, s, steps + [Rest]) == Some(s1.(phase := Selecting))
  {
    PlayOneMore(c, s, steps, Rest);
  }

  /** `s` after all of `out` is written, with `rest` left in the heap. */
  function Drained(s: State, out: seq<Packet>, rest: multiset<Packet>): State
    requires s.phase.Draining?
  {
    s.(pending := rest, written := s.written + out, clocks := s.clocks + Repeated(s.phase.now, |out|))
  }

  lemma DrainedInTwo(s: State, out: seq<Packet>, rest: multiset<Packet>)
    requires s.phase.Draining? && out != []
    ensures Drained(Written(s, out[0]), out[1..], rest) == Drained(s, out, rest)
  {
    assert [out[0]] + out[1..] == out;
    assert s.written + [out[0]] + out[1..] == s.written + out;
    assert s.clocks + [s.phase.now] + Repeated(s.phase.now, |out| - 1) == s.clocks + Repeated(s.phase.now, |out|);
  }

  lemma WritesInTwo(steps: seq<Step>, out: seq<Packet>)
    requires out != []
    ensures steps + [Write(out[0])] + Writes(out[1..]) == steps + Writes(out)
  {
  }

  /** A drain is a run of `Write` steps: the loop and the interleaved system agree on what it writes. */
  lemma {:induction false} DrainIsPlayed(c: Config, s: State, steps: seq<Step>, s1: State, out: seq<Packet>,
                                         rest: multiset<Packet>)
    requires Typed(c, s) && Play(c, s, steps) == Some(s1)
    requires s1.phase.Draining? && Drains(s1.pending, s1.phase.now, out, rest)
    ensures Play(c, s, steps + Writes(out)) == Some(Drained(s1, out, rest))
    ensures Enabled(c, Drained(s1, out, rest), Rest)
    decreases |out|
  {
    if out == [] {
      assert Drained(s1, out, rest) == s1;
      assert steps + Writes(out) == steps;
    } else {
      PlayWrite(c, s, steps, s1, out[0]);
      DrainIsPlayed(c, s, steps + [Write(out[0])], Written(s1, out[0]), out[1..], rest);
      DrainedInTwo(s1, out, rest);
      WritesInTwo(steps, out);
    }
  }

  /** One whole turn of the loop is a run of steps of the interleaved system, from one select to the next. */
  lemma {:induction false} TurnIsPlayed(c: Config, s: State, steps: seq<Step>, s1: State,
                                        arrival: Option<Packet>, now: int,
                     out: seq<Packet>, rest: multiset<Packet>)
    requires Typed(c, s) && Play(c, s, steps) == Some(s1) && s1.phase.Selecting?
    requires arrival.Some? ==> s1.queue != [] && arrival.value == s1.queue[0]
    requires Drains(Loaded(s1.pending, |s1.received|, arrival), now, out, rest)
    ensures var woken := steps + [if arrival.Some? then Receive else TimerFires] + [ReadClock(now)];
            var end := Play(c, s, woken + Writes(out) + [Rest]);
            && end.Some? && end.value.phase.Selecting?
            && end.value.pending == rest && end.value.written == s1.written + out
            && |end.value.received| == |s1.received| + if arrival.Some? then 1 else 0
  {
    var s2 := if arrival.Some? then Received(s1) else s1.(phase := Woken);
    var s3 := s2.(phase := Draining(now));
    var woken := steps + [if arrival.Some? then Receive else TimerFires] + [ReadClock(now)];
    PlayWake(c, s, steps, s1, arrival.Some?);
    PlayClock(c, s, steps + [if arrival.Some? then Receive else TimerFires], s2, now);
    DrainIsPlayed(c, s, woken, s3, out, rest);
    PlayRest(c, s, woken + Writes(out), Drained(s3, out, rest));
  }

  /** Within one drain packets leave by time, and packets of one time in the order they came. */
  lemma {:induction false} DrainsInOrder(bag: multiset<Packet>, now: int, out: seq<Packet>,
                                         rest: multiset<Packet>, i: nat, j: nat)
    requires Drains(bag, now, out, rest) && i < j < |out|
    ensures out[j] in bag
    ensures out[i].at < out[j].at || (out[i].at == out[j].at && out[i].seqNo <= out[j].seqNo)
    decreases |out|
  {
    if i > 0 {
      DrainsInOrder(bag - multiset{out[0]}, now, out[1..], rest, i - 1, j - 1);
    } else if j > 1 {
      DrainsInOrder(bag - multiset{out[0]}, now, out[1..], rest, 0, j - 1);
    } else {
      assert out[1..][0] == out[1];
    }
  }
}
