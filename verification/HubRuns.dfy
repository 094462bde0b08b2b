/**
 The hub under concurrency: any number of connections, each with its handler,
 its writer and the closes asked of it, and any number of publications in
 flight, each a snapshot of a topic followed by one offer per connection. Every
 `Step` is one locked section or one channel operation.
 */
module HubRuns {
  import opened Wrappers
  import opened Hub

  type Id = nat

  /** A frame of the k-th publication, or an answer to the client. */
  datatype Frame = Event(publication: nat) | Answered(text: string)

  /** Where a connection's handler is: reading, part way through a frame, refused by a closed hub, or finished. */
  datatype Session = Serving | Subscribing(rest: seq<string>) | Unsubscribing(rest: seq<string>) | Refused | Gone

  /** `taken`, `appended` and `offered` record what the writer took, what was queued and what was offered. */
  datatype Client = Client(
    session: Session,
    box: Outbox<Frame>,
    taken: seq<Frame>,
    appended: seq<Frame>,
    offered: seq<Frame>)

  datatype Publication = Publication(topic: string, targets: set<Id>, remaining: set<Id>)

  datatype Config = Config(sendBuffer: nat, maxTopics: nat, allowed: (Id, string) -> bool)

  datatype State = State(index: Index<Id>, clients: map<Id, Client>, pubs: seq<Publication>)

  const START := State(Index({}, map[], map[], false), map[], [])

  datatype Step =
    | Accept(c: Id)
    | ReadFrame(c: Id, frame: Inbound)
    | NextTopic(c: Id)
    | Reply(c: Id, text: string, pickDone: bool)
    | Leave(c: Id)
    | AskClose(c: Id)
    | RunClose(c: Id)
    | CloseHub
    | Snapshot(topic: string)
    | Offer(k: nat, c: Id, pickDone: bool)
    | Take(c: Id)

  predicate Enabled(cfg: Config, s: State, step: Step) {
    match step
    case Accept(c) => c !in s.clients
    case ReadFrame(c, _) => c in s.clients && s.clients[c].session.Serving?
    case NextTopic(c) => c in s.clients && (s.clients[c].session.Subscribing? || s.clients[c].session.Unsubscribing?)
    case Reply(c, _, _) => c in s.clients && s.clients[c].session.Serving?
    case Leave(c) => c in s.clients && s.clients[c].session.Serving?
    case AskClose(c) => c in s.clients
    case RunClose(c) => c in s.clients && s.clients[c].box.ran < s.clients[c].box.calls
    case CloseHub => true
    case Snapshot(_) => true
    case Offer(k, c, _) => k < |s.pubs| && c in s.pubs[k].remaining && c in s.clients
    case Take(c) => c in s.clients && s.clients[c].box.send != []
  }

  const NEW: Outbox<Frame> := Outbox([], 0, 0, 0)

  function Offering(cfg: Config, x: Client, frame: Frame, pickDone: bool): Client {
    var box := Offered(x.box, cfg.sendBuffer, frame, pickDone);
    x.(box := box,
       appended := if |box.send| > |x.box.send| then x.appended + [frame] else x.appended,
       offered := x.offered + [frame])
  }

  function Taking(x: Client): Client
    requires x.box.send != []
  {
    x.(box := x.box.(send := x.box.send[1..]), taken := x.taken + [x.box.send[0]])
  }

  function Asked(x: Client): Client {
    x.(box := CloseCalled(x.box))
  }

  /** What a frame starts, once its answer is decided. */
  function Begin(answer: Answer): Session {
    match answer
    case SubscribedTo(ts) => Subscribing(ts)
    case UnsubscribedFrom(ts) => Unsubscribing(ts)
    case _ => Serving
  }

  function Do(cfg: Config, s: State, step: Step): State
    requires Enabled(cfg, s, step)
  {
    match step
    case Accept(c) =>
      // A connection a closed hub turns away is closed by its own handler.
      var x := if s.index.closed then Client(Refused, CloseRun(CloseCalled(NEW)), [], [], [])
               else Client(Serving, NEW, [], [], []);
      s.(index := Added(s.index, c), clients := s.clients[c := x])
    case ReadFrame(c, frame) =>
      var x := s.clients[c];
      var answer := AnswerTo(|s.index.TopicsOf(c)|, cfg.maxTopics, frame, t => cfg.allowed(c, t));
      s.(clients := s.clients[c := x.(session := Begin(answer))])
    case NextTopic(c) =>
      var x := s.clients[c];
      if x.session.rest == [] then s.(clients := s.clients[c := x.(session := Serving)])
      else
        var topic, rest := x.session.rest[0], x.session.rest[1..];
        if x.session.Subscribing? then
          s.(index := Subscribed(s.index, c, topic), clients := s.clients[c := x.(session := Subscribing(rest))])
        else
          s.(index := Unsubscribed(s.index, c, topic), clients := s.clients[c := x.(session := Unsubscribing(rest))])
    case Reply(c, text, pickDone) =>
      s.(clients := s.clients[c := Offering(cfg, s.clients[c], Answered(text), pickDone)])
    case Leave(c) =>
      s.(index := Removed(s.index, c), clients := s.clients[c := s.clients[c].(session := Gone)])
    case AskClose(c) => s.(clients := s.clients[c := Asked(s.clients[c])])
    case RunClose(c) => s.(clients := s.clients[c := s.clients[c].(box := CloseRun(s.clients[c].box))])
    case CloseHub =>
      s.(index := Closed(s.index),
         clients := map c | c in s.clients :: if c in s.index.conns then Asked(s.clients[c]) else s.clients[c])
    case Snapshot(topic) =>
      s.(pubs := s.pubs + [Publication(topic, s.index.Subscribers(topic), s.index.Subscribers(topic))])
    case Offer(k, c, pickDone) =>
      s.(clients := s.clients[c := Offering(cfg, s.clients[c], Event(k), pickDone)],
         pubs := s.pubs[k := s.pubs[k].(remaining := s.pubs[k].remaining - {c})])
    case Take(c) => s.(clients := s.clients[c := Taking(s.clients[c])])
  }

  /** The state after an interleaving of steps, none when some step was not enabled. */
  function Play(cfg: Config, steps: seq<Step>): Option<State> {
    if steps == [] then Some(START)
    else
      var before := Play(cfg, steps[..|steps| - 1]);
      var step := steps[|steps| - 1];
      if before.Some? && Enabled(cfg, before.value, step) then Some(Do(cfg, before.value, step)) else None
  }

  // ---- The subscription index, over every run ----

  /** How many topics a handler is still about to follow. */
  function Promised(x: Client): nat {
    if x.session.Subscribing? then |x.session.rest| else 0
  }

  ghost predicate IndexInv(cfg: Config, s: State) {
    && s.index.Consistent()
    && s.index.mine.Keys <= s.clients.Keys
    && (forall c | c in s.clients :: |s.index.TopicsOf(c)| + Promised(s.clients[c]) <= cfg.maxTopics)
    && (forall c | c in s.clients && (s.clients[c].session.Gone? || s.clients[c].session.Refused?) ::
          s.index.TopicsOf(c) == {})
  }

  lemma NextTopicKeepsIndex(cfg: Config, s: State, c: Id)
    requires IndexInv(cfg, s) && Enabled(cfg, s, NextTopic(c))
    ensures IndexInv(cfg, Do(cfg, s, NextTopic(c)))
  {
    var x := s.clients[c];
    if x.session.rest != [] {
      var topic := x.session.rest[0];
      if x.session.Subscribing? {
        SubscribedIsConsistent(s.index, c, topic);
        SubscribedTopics(s.index, c, topic);
        FollowingKeepsIndex(cfg, s, c, Subscribed(s.index, c, topic), Subscribing(x.session.rest[1..]));
      } else {
        UnsubscribedIsConsistent(s.index, c, topic);
        UnsubscribedTopics(s.index, c, topic);
        FollowingKeepsIndex(cfg, s, c, Unsubscribed(s.index, c, topic), Unsubscribing(x.session.rest[1..]));
      }
    }
  }

  lemma {:induction false} SubscribedTopics(ix: Index<Id>, c: Id, topic: string)
    ensures Subscribed(ix, c, topic).TopicsOf(c) == ix.TopicsOf(c) + {topic}
    ensures |Subscribed(ix, c, topic).TopicsOf(c)| <= |ix.TopicsOf(c)| + 1
    ensures forall d | d != c :: Subscribed(ix, c, topic).TopicsOf(d) == ix.TopicsOf(d)
    ensures forall d | d in Subscribed(ix, c, topic).mine :: d in ix.mine || d == c
  {
    OneMore(ix.TopicsOf(c), topic);
  }

  lemma {:induction false} OneMore<T>(a: set<T>, x: T)
    ensures |a + {x}| <= |a| + 1
  {
  }

  lemma UnsubscribedTopics(ix: Index<Id>, c: Id, topic: string)
    ensures |Unsubscribed(ix, c, topic).TopicsOf(c)| <= |ix.TopicsOf(c)|
    ensures forall d | d != c :: Unsubscribed(ix, c, topic).TopicsOf(d) == ix.TopicsOf(d)
    ensures forall d | d in Unsubscribed(ix, c, topic).mine :: d in ix.mine || d == c
  {
    assert ix.TopicsOf(c) - {topic} <= ix.TopicsOf(c);
    SmallerSet(ix.TopicsOf(c) - {topic}, ix.TopicsOf(c));
  }

  lemma SmallerSet<T>(a: set<T>, b: set<T>)
    requires a <= b
    ensures |a| <= |b|
  {
    assert b == a + (b - a);
  }

  /** A handler part way through a frame that goes on with the next of its topics. */
  lemma FollowingKeepsIndex(cfg: Config, s: State, c: Id, ix: Index<Id>, session: Session)
    requires IndexInv(cfg, s) && c in s.clients && ix.Consistent()
    requires session.Subscribing? || session.Unsubscribing?
    requires var x := s.clients[c].(session := session);
             |ix.TopicsOf(c)| + Promised(x) <= |s.index.TopicsOf(c)| + Promised(s.clients[c])
    requires forall d | d != c :: ix.TopicsOf(d) == s.index.TopicsOf(d)
    requires forall d | d in ix.mine :: d in s.index.mine || d == c
    ensures IndexInv(cfg, s.(index := ix, clients := s.clients[c := s.clients[c].(session := session)]))
  {
  }

  lemma StepKeepsIndex(cfg: Config, s: State, step: Step)
    requires IndexInv(cfg, s) && Enabled(cfg, s, step)
    ensures IndexInv(cfg, Do(cfg, s, step))
  {
    match step
    case Accept(c) => SameListsStayConsistent(s.index, Added(s.index, c));
    case NextTopic(c) => NextTopicKeepsIndex(cfg, s, c);
    case Leave(c) => RemovedIsNowhere(s.index, c);
    case CloseHub => assert forall t :: Closed(s.index).Subscribers(t) == {};
    case _ =>
  }

  lemma {:induction false} PlayKeepsIndex(cfg: Config, steps: seq<Step>)
    requires Play(cfg, steps).Some?
    ensures IndexInv(cfg, Play(cfg, steps).value)
  {
    if steps != [] {
      PlayKeepsIndex(cfg, steps[..|steps| - 1]);
      StepKeepsIndex(cfg, Play(cfg, steps[..|steps| - 1]).value, steps[|steps| - 1]);
    }
  }

  // ---- One connection's frames, over every run ----

  ghost predicate IsSubsequence<T>(a: seq<T>, b: seq<T>) {
    if a == [] then true
    else if b == [] then false
    else (a[|a| - 1] == b[|b| - 1] && IsSubsequence(a[..|a| - 1], b[..|b| - 1])) || IsSubsequence(a, b[..|b| - 1])
  }

  ghost predicate ClientInv(cfg: Config, x: Client) {
    && |x.box.send| <= cfg.sendBuffer
    && x.taken + x.box.send == x.appended
    && x.box.ran <= x.box.calls && x.box.closed == (if x.box.ran == 0 then 0 else 1)
    && (x.box.calls == 0 ==> x.appended == x.offered)
    && IsSubsequence(x.appended, x.offered)
  }

  lemma OfferingKeepsClient(cfg: Config, x: Client, frame: Frame, pickDone: bool)
    requires ClientInv(cfg, x)
    ensures ClientInv(cfg, Offering(cfg, x, frame, pickDone))
  {
    assert (x.offered + [frame])[..|x.offered|] == x.offered;
    assert (x.appended + [frame])[..|x.appended|] == x.appended;
  }

  lemma {:induction false} PlayKeepsClients(cfg: Config, steps: seq<Step>)
    requires Play(cfg, steps).Some?
    ensures forall c | c in Play(cfg, steps).value.clients :: ClientInv(cfg, Play(cfg, steps).value.clients[c])
  {
    if steps != [] {
      PlayKeepsClients(cfg, steps[..|steps| - 1]);
      StepKeepsClients(cfg, Play(cfg, steps[..|steps| - 1]).value, steps[|steps| - 1]);
    }
  }

  lemma StepKeepsClients(cfg: Config, s: State, step: Step)
    requires Enabled(cfg, s, step) && forall c | c in s.clients :: ClientInv(cfg, s.clients[c])
    ensures forall c | c in Do(cfg, s, step).clients :: ClientInv(cfg, Do(cfg, s, step).clients[c])
  {
    match step
    case Reply(c, text, pickDone) => OfferingKeepsClient(cfg, s.clients[c], Answered(text), pickDone);
    case Offer(k, c, pickDone) => OfferingKeepsClient(cfg, s.clients[c], Event(k), pickDone);
    case _ =>
  }

  // ---- Every publication, over every run ----

  function Times(x: Client, k: nat): nat {
    multiset(x.offered)[Event(k)]
  }

  /** A publication has been offered once to each connection of its snapshot it has got to, and to no other. */
  ghost predicate FanOutInv(s: State) {
    && (forall k | 0 <= k < |s.pubs| :: s.pubs[k].remaining <= s.pubs[k].targets <= s.clients.Keys)
    && (forall c, k: nat | c in s.clients :: OfferedOnce(s, c, k))
  }

  ghost predicate OfferedOnce(s: State, c: Id, k: nat)
    requires c in s.clients
  {
    Times(s.clients[c], k) == if k < |s.pubs| && c in s.pubs[k].targets - s.pubs[k].remaining then 1 else 0
  }

  lemma OfferKeepsFanOut(cfg: Config, s: State, j: nat, d: Id, pickDone: bool)
    requires FanOutInv(s) && Enabled(cfg, s, Offer(j, d, pickDone))
    ensures FanOutInv(Do(cfg, s, Offer(j, d, pickDone)))
  {
    var s' := Do(cfg, s, Offer(j, d, pickDone));
    forall c, k: nat | c in s'.clients
      ensures OfferedOnce(s', c, k)
    {
      assert OfferedOnce(s, c, k);
      assert Times(s'.clients[c], k) == Times(s.clients[c], k) + if c == d && k == j then 1 else 0;
    }
  }

  lemma SnapshotKeepsFanOut(cfg: Config, s: State, topic: string)
    requires IndexInv(cfg, s) && FanOutInv(s)
    ensures FanOutInv(Do(cfg, s, Snapshot(topic)))
  {
    var s' := Do(cfg, s, Snapshot(topic));
    forall c, k: nat | c in s'.clients
      ensures OfferedOnce(s', c, k)
    {
      assert OfferedOnce(s, c, k);
    }
    forall c | c in s.index.Subscribers(topic)
      ensures c in s.clients
    {
      assert topic in s.index.TopicsOf(c);
    }
  }

  /** Steps that make no offer of an event and start no publication. */
  lemma OtherKeepsFanOut(s: State, s': State)
    requires FanOutInv(s) && s'.pubs == s.pubs && s.clients.Keys <= s'.clients.Keys
    requires forall c, k: nat | c in s'.clients ::
               Times(s'.clients[c], k) == if c in s.clients then Times(s.clients[c], k) else 0
    ensures FanOutInv(s')
  {
    forall c, k: nat | c in s'.clients
      ensures OfferedOnce(s', c, k)
    {
      assert c in s.clients ==> OfferedOnce(s, c, k);
    }
  }

  lemma StepKeepsFanOut(cfg: Config, s: State, step: Step)
    requires IndexInv(cfg, s) && FanOutInv(s) && Enabled(cfg, s, step)
    ensures FanOutInv(Do(cfg, s, step))
  {
    match step
    case Offer(k, c, pickDone) => OfferKeepsFanOut(cfg, s, k, c, pickDone);
    case Snapshot(topic) => SnapshotKeepsFanOut(cfg, s, topic);
    case _ => OtherKeepsFanOut(s, Do(cfg, s, step));
  }

  lemma {:induction false} PlayKeepsFanOut(cfg: Config, steps: seq<Step>)
    requires Play(cfg, steps).Some?
    ensures FanOutInv(Play(cfg, steps).value)
  {
    if steps != [] {
      PlayKeepsFanOut(cfg, steps[..|steps| - 1]);
      PlayKeepsIndex(cfg, steps[..|steps| - 1]);
      StepKeepsFanOut(cfg, Play(cfg, steps[..|steps| - 1]).value, steps[|steps| - 1]);
    }
  }

  // ---- What every interleaving guarantees ----

  /**
   The two maps agree for as long as the hub is open, the one-way half holds
   for ever, no empty topic is kept, no connection follows more than the bound,
   and a finished connection is on no list, whatever it did after a close.
   */
  lemma {:induction false} IndexHolds(cfg: Config, steps: seq<Step>, c: Id, topic: string)
    requires Play(cfg, steps).Some? && c in Play(cfg, steps).value.clients
    ensures var s := Play(cfg, steps).value;
            && (c in s.index.Subscribers(topic) ==> topic in s.index.TopicsOf(c))
            && (!s.index.closed ==> (c in s.index.Subscribers(topic) <==> topic in s.index.TopicsOf(c)))
            && (topic in s.index.topics ==> s.index.topics[topic] != {})
            && |s.index.TopicsOf(c)| <= cfg.maxTopics
            && (s.clients[c].session.Gone? ==> c !in s.index.Subscribers(topic))
  {
    PlayKeepsIndex(cfg, steps);
    var ix := Play(cfg, steps).value.index;
    assert c in ix.Subscribers(topic) ==> topic in ix.TopicsOf(c);
    if !ix.closed && topic in ix.TopicsOf(c) {
      assert c in ix.mine;
    }
  }

  /**
   A connection's writer and queue hold, in order, exactly the frames that were
   queued, never more than the buffer at once; those are in the order they were
   offered, and all of them unless a close was asked for.
   */
  lemma {:induction false} FramesAddUp(cfg: Config, steps: seq<Step>, c: Id)
    requires Play(cfg, steps).Some? && c in Play(cfg, steps).value.clients
    ensures var x := Play(cfg, steps).value.clients[c];
            && |x.box.send| <= cfg.sendBuffer
            && x.taken + x.box.send == x.appended
            && IsSubsequence(x.appended, x.offered)
            && (x.box.calls == 0 ==> x.taken + x.box.send == x.offered)
  {
    PlayKeepsClients(cfg, steps);
  }

  // ---- Every offer, close and frame of a run, by its steps ----

  predicate OffersTo(step: Step, c: Id) {
    (step.Reply? && step.c == c) || (step.Offer? && step.c == c)
  }

  function FrameOffered(step: Step): Frame
    requires step.Reply? || step.Offer?
  {
    if step.Reply? then Answered(step.text) else Event(step.k)
  }

  /** At this moment the connection's queue has room. */
  predicate HasRoom(cfg: Config, s: State, c: Id) {
    c in s.clients && |s.clients[c].box.send| < cfg.sendBuffer
  }

  predicate IsDone(s: State, c: Id) {
    c in s.clients && s.clients[c].box.closed > 0
  }

  /** The frames offered to a connection when it had room, but for those a done one was not given. */
  function InTime(cfg: Config, steps: seq<Step>, c: Id): seq<Frame>
    requires Play(cfg, steps).Some?
  {
    if steps == [] then []
    else
      var before, step := steps[..|steps| - 1], steps[|steps| - 1];
      var s := Play(cfg, before).value;
      InTime(cfg, before, c)
      + if OffersTo(step, c) && HasRoom(cfg, s, c) && !(IsDone(s, c) && step.pickDone) then [FrameOffered(step)] else []
  }

  /**
   How often the close of a connection was called: asked for, by the hub's close while it was
   connected, by its handler when a closed hub turned it away, and by each offer that met an
   open connection with no room.
   */
  function CloseCalls(cfg: Config, steps: seq<Step>, c: Id): nat
    requires Play(cfg, steps).Some?
  {
    if steps == [] then 0
    else
      var before, step := steps[..|steps| - 1], steps[|steps| - 1];
      var s := Play(cfg, before).value;
      CloseCalls(cfg, before, c)
      + if || step == AskClose(c)
           || (step.CloseHub? && c in s.index.conns)
           || (step == Accept(c) && s.index.closed)
           || (OffersTo(step, c) && !HasRoom(cfg, s, c) && !IsDone(s, c)) then 1
        else 0
  }

  lemma StepAccounts(cfg: Config, s: State, step: Step, c: Id)
    requires Enabled(cfg, s, step) && c in s.clients && (s.index.conns <= s.clients.Keys)
    ensures var x, x' := s.clients[c], Do(cfg, s, step).clients[c];
            && x'.appended
               == x.appended
                  + (if OffersTo(step, c) && HasRoom(cfg, s, c) && !(IsDone(s, c) && step.pickDone) then
                       [FrameOffered(step)]
                     else [])
            && x'.box.calls
               == x.box.calls
                  + if || step == AskClose(c) || (step.CloseHub? && c in s.index.conns)
                       || (OffersTo(step, c) && !HasRoom(cfg, s, c) && !IsDone(s, c)) then 1
                    else 0
  {
    assert s.clients[c].appended + [] == s.clients[c].appended;
  }

  lemma {:induction false} AccountsAgree(cfg: Config, steps: seq<Step>, c: Id)
    requires Play(cfg, steps).Some?
    ensures var s := Play(cfg, steps).value;
            if c in s.clients then
              s.clients[c].appended == InTime(cfg, steps, c) && s.clients[c].box.calls == CloseCalls(cfg, steps, c)
            else InTime(cfg, steps, c) == [] && CloseCalls(cfg, steps, c) == 0
  {
    if steps != [] {
      var before, step := steps[..|steps| - 1], steps[|steps| - 1];
      AccountsAgree(cfg, before, c);
      ConnsAreServed(cfg, before);
      var s := Play(cfg, before).value;
      if c in s.clients {
        StepAccounts(cfg, s, step, c);
      }
    }
  }

  /**
   Over every interleaving, what the writer took and what is queued are exactly the frames that
   were offered while there was room, in order, and every close that was called is accounted for:
   nothing is dropped or closed without its cause.
   */
  lemma {:induction false} EveryOfferIsAccountedFor(cfg: Config, steps: seq<Step>, c: Id)
    requires Play(cfg, steps).Some? && c in Play(cfg, steps).value.clients
    ensures var x := Play(cfg, steps).value.clients[c];
            x.taken + x.box.send == InTime(cfg, steps, c) && x.box.calls == CloseCalls(cfg, steps, c)
  {
    PlayKeepsClients(cfg, steps);
    AccountsAgree(cfg, steps, c);
  }

  /** A frame offered to an open connection with room is taken or queued from then on, in its place. */
  lemma {:induction false} OfferedInTimeIsKept(cfg: Config, steps: seq<Step>, i: nat, c: Id)
    requires Play(cfg, steps).Some? && i < |steps| && OffersTo(steps[i], c)
    ensures Play(cfg, steps[..i]).Some? && c in Play(cfg, steps).value.clients
    ensures var s, x := Play(cfg, steps[..i]).value, Play(cfg, steps).value.clients[c];
            HasRoom(cfg, s, c) && !IsDone(s, c) ==>
              InTime(cfg, steps[..i], c) + [FrameOffered(steps[i])] <= x.taken + x.box.send
  {
    PlayOfPrefix(cfg, steps, i);
    PlayOfPrefix(cfg, steps, i + 1);
    ClientsStay(cfg, steps, i + 1, c);
    assert steps[..i + 1][..i] == steps[..i];
    InTimeGrows(cfg, steps, i + 1, c);
    EveryOfferIsAccountedFor(cfg, steps, c);
  }

  lemma {:induction false} PlayOfPrefix(cfg: Config, steps: seq<Step>, n: nat)
    requires Play(cfg, steps).Some? && n <= |steps|
    ensures Play(cfg, steps[..n]).Some?
  {
    if n == |steps| {
      assert steps[..n] == steps;
    } else {
      assert steps[..|steps| - 1][..n] == steps[..n];
      PlayOfPrefix(cfg, steps[..|steps| - 1], n);
    }
  }

  lemma {:induction false} ClientsStay(cfg: Config, steps: seq<Step>, n: nat, c: Id)
    requires Play(cfg, steps).Some? && n <= |steps| && Play(cfg, steps[..n]).Some?
    requires c in Play(cfg, steps[..n]).value.clients
    ensures c in Play(cfg, steps).value.clients
  {
    if n == |steps| {
      assert steps[..n] == steps;
    } else {
      assert steps[..|steps| - 1][..n] == steps[..n];
      ClientsStay(cfg, steps[..|steps| - 1], n, c);
    }
  }

  lemma {:induction false} InTimeGrows(cfg: Config, steps: seq<Step>, n: nat, c: Id)
    requires Play(cfg, steps).Some? && n <= |steps| && Play(cfg, steps[..n]).Some?
    ensures InTime(cfg, steps[..n], c) <= InTime(cfg, steps, c)
  {
    if n == |steps| {
      assert steps[..n] == steps;
    } else {
      assert steps[..|steps| - 1][..n] == steps[..n];
      InTimeGrows(cfg, steps[..|steps| - 1], n, c);
    }
  }

  // ---- Who is connected, and to what ----

  predicate IsServed(x: Client) {
    x.session.Serving? || x.session.Subscribing? || x.session.Unsubscribing?
  }

  ghost predicate Serves(s: State) {
    forall c :: c in s.index.conns <==> c in s.clients && IsServed(s.clients[c]) && !s.index.closed
  }

  lemma StepKeepsServes(cfg: Config, s: State, step: Step)
    requires Enabled(cfg, s, step) && Serves(s)
    ensures Serves(Do(cfg, s, step))
    ensures Do(cfg, s, step).index.closed == (s.index.closed || step.CloseHub?)
  {
  }

  /** The hub is closed once it has been, and until then it knows exactly the connections being served. */
  lemma {:induction false} ConnsAreServed(cfg: Config, steps: seq<Step>)
    requires Play(cfg, steps).Some?
    ensures var s := Play(cfg, steps).value;
            && (s.index.closed <==> CloseHub in steps)
            && (forall c :: c in s.index.conns <==> c in s.clients && IsServed(s.clients[c]) && !s.index.closed)
  {
    if steps != [] {
      var n := |steps| - 1;
      ConnsAreServed(cfg, steps[..n]);
      StepKeepsServes(cfg, Play(cfg, steps[..n]).value, steps[n]);
      assert steps == steps[..n] + [steps[n]];
    }
  }

  /** What a connection has asked for: the topics of its accepted frames less those it then left. */
  function AskedFor(cfg: Config, steps: seq<Step>, c: Id): set<string>
    requires Play(cfg, steps).Some?
  {
    if steps == [] then {}
    else
      var before, step := steps[..|steps| - 1], steps[|steps| - 1];
      var asked := AskedFor(cfg, before, c);
      if step == Leave(c) then {}
      else if step.ReadFrame? && step.c == c && step.frame.Unsubscribe? then asked - set t | t in step.frame.topics
      else if && step.ReadFrame? && step.c == c && step.frame.Subscribe?
              && |Play(cfg, before).value.index.TopicsOf(c)| + |step.frame.topics| <= cfg.maxTopics
              && forall t | t in step.frame.topics :: cfg.allowed(c, t) then
        asked + set t | t in step.frame.topics
      else asked
  }

  /** What a connection will follow once its handler is done with the frame it is at. */
  function Goal(s: State, c: Id): set<string>
    requires c in s.clients
  {
    match s.clients[c].session
    case Subscribing(rest) => s.index.TopicsOf(c) + set t | t in rest
    case Unsubscribing(rest) => s.index.TopicsOf(c) - set t | t in rest
    case _ => s.index.TopicsOf(c)
  }

  lemma NextTopicKeepsGoal(cfg: Config, s: State, c: Id)
    requires Enabled(cfg, s, NextTopic(c))
    ensures Goal(Do(cfg, s, NextTopic(c)), c) == Goal(s, c)
  {
    var rest := s.clients[c].session.rest;
    if rest != [] {
      SubscribedAdds(s.index, c, rest[0]);
      UnsubscribedRemoves(s.index, c, rest[0]);
      assert rest == [rest[0]] + rest[1..];
    }
  }

  lemma ReadMovesGoal(cfg: Config, s: State, c: Id, frame: Inbound)
    requires Enabled(cfg, s, ReadFrame(c, frame))
    ensures Goal(Do(cfg, s, ReadFrame(c, frame)), c)
         == match frame
            case Unsubscribe(topics) => s.index.TopicsOf(c) - set t | t in topics
            case Subscribe(topics) =>
              if |s.index.TopicsOf(c)| + |topics| <= cfg.maxTopics && forall t | t in topics :: cfg.allowed(c, t) then
                s.index.TopicsOf(c) + set t | t in topics
              else s.index.TopicsOf(c)
            case _ => s.index.TopicsOf(c)
  {
    if frame.Subscribe? {
      BeginsToSubscribe(cfg, |s.index.TopicsOf(c)|, c, frame.topics);
    }
  }

  /** A subscribe frame starts the handler on its topics exactly when they fit and are all allowed. */
  lemma BeginsToSubscribe(cfg: Config, following: nat, c: Id, topics: seq<string>)
    ensures var session := Begin(AnswerTo(following, cfg.maxTopics, Subscribe(topics), t => cfg.allowed(c, t)));
            if topics != [] && following + |topics| <= cfg.maxTopics && forall t | t in topics :: cfg.allowed(c, t) then
              session == Subscribing(topics)
            else session == Serving
  {
    SubscribeNeedsEveryTopic(following, cfg.maxTopics, topics, t => cfg.allowed(c, t));
  }

  lemma OthersKeepTopics(cfg: Config, s: State, step: Step, c: Id)
    requires Enabled(cfg, s, step) && c in s.clients
    requires step != NextTopic(c) && step != Leave(c) && !(step.ReadFrame? && step.c == c)
    ensures Goal(Do(cfg, s, step), c) == Goal(s, c)
  {
    match step
    case NextTopic(d) =>
      if s.clients[d].session.rest != [] {
        SubscribedAdds(s.index, d, s.clients[d].session.rest[0]);
        UnsubscribedRemoves(s.index, d, s.clients[d].session.rest[0]);
      }
    case _ =>
  }

  lemma {:induction false} GoalIsAskedFor(cfg: Config, steps: seq<Step>, c: Id)
    requires Play(cfg, steps).Some?
    ensures var s := Play(cfg, steps).value;
            if c in s.clients then Goal(s, c) == AskedFor(cfg, steps, c)
            else AskedFor(cfg, steps, c) == {} && s.index.TopicsOf(c) == {}
  {
    if steps != [] {
      var before, step := steps[..|steps| - 1], steps[|steps| - 1];
      GoalIsAskedFor(cfg, before, c);
      PlayKeepsIndex(cfg, before);
      var s := Play(cfg, before).value;
      if c in s.clients {
        match step
        case NextTopic(d) =>
          if d == c {
            NextTopicKeepsGoal(cfg, s, c);
          } else {
            OthersKeepTopics(cfg, s, step, c);
          }
        case ReadFrame(d, frame) =>
          if d == c {
            ReadMovesGoal(cfg, s, c, frame);
          } else {
            OthersKeepTopics(cfg, s, step, c);
          }
        case Leave(d) =>
          if d != c {
            OthersKeepTopics(cfg, s, step, c);
          }
        case _ => OthersKeepTopics(cfg, s, step, c);
      }
    }
  }

  /**
   Between two frames a connection follows exactly what it asked for, and as long as the hub is
   open each of those topics, and no other, lists it.
   */
  lemma {:induction false} FollowsWhatItAskedFor(cfg: Config, steps: seq<Step>, c: Id)
    requires Play(cfg, steps).Some? && c in Play(cfg, steps).value.clients
    requires Play(cfg, steps).value.clients[c].session.Serving?
    ensures var ix := Play(cfg, steps).value.index;
            && ix.TopicsOf(c) == AskedFor(cfg, steps, c)
            && (!ix.closed ==> forall t :: c in ix.Subscribers(t) <==> t in AskedFor(cfg, steps, c))
  {
    GoalIsAskedFor(cfg, steps, c);
    forall t
      ensures var ix := Play(cfg, steps).value.index;
              !ix.closed ==> (c in ix.Subscribers(t) <==> t in ix.TopicsOf(c))
    {
      IndexHolds(cfg, steps, c, t);
    }
  }

  /** A publication is addressed to exactly those its topic listed when it was made. */
  lemma {:induction false} SnapshotIsTheListed(cfg: Config, steps: seq<Step>, i: nat)
    requires Play(cfg, steps).Some? && i < |steps| && steps[i].Snapshot?
    ensures Play(cfg, steps[..i]).Some?
    ensures var s0, s := Play(cfg, steps[..i]).value, Play(cfg, steps).value;
            && |s0.pubs| < |s.pubs| && s.pubs[|s0.pubs|].topic == steps[i].topic
            && s.pubs[|s0.pubs|].targets == s0.index.Subscribers(steps[i].topic)
  {
    PlayOfPrefix(cfg, steps, i);
    PlayOfPrefix(cfg, steps, i + 1);
    assert steps[..i + 1][..i] == steps[..i];
    PublicationsStay(cfg, steps, i + 1, |Play(cfg, steps[..i]).value.pubs|);
  }

  lemma {:induction false} PublicationsStay(cfg: Config, steps: seq<Step>, n: nat, k: nat)
    requires Play(cfg, steps).Some? && n <= |steps| && Play(cfg, steps[..n]).Some?
    requires k < |Play(cfg, steps[..n]).value.pubs|
    ensures var s0, s := Play(cfg, steps[..n]).value, Play(cfg, steps).value;
            k < |s.pubs| && s.pubs[k].topic == s0.pubs[k].topic && s.pubs[k].targets == s0.pubs[k].targets
  {
    if n == |steps| {
      assert steps[..n] == steps;
    } else {
      assert steps[..|steps| - 1][..n] == steps[..n];
      PublicationsStay(cfg, steps[..|steps| - 1], n, k);
    }
  }

  /**
   However many callers ask for it, at most one call of a connection's close closes
   its done channel; exactly one does once any call has run, and every run was called for.
   */
  lemma {:induction false} ClosedAtMostOnce(cfg: Config, steps: seq<Step>, c: Id)
    requires Play(cfg, steps).Some? && c in Play(cfg, steps).value.clients
    ensures var x := Play(cfg, steps).value.clients[c];
            && x.box.closed <= 1 && (x.box.closed == 1 <==> Runs(steps, c) > 0 || x.session.Refused?)
            && x.box.ran <= x.box.calls
  {
    PlayKeepsClients(cfg, steps);
    RunsAreCounted(cfg, steps, c);
  }

  /** How often a call of this connection's close ran. */
  function Runs(steps: seq<Step>, c: Id): nat {
    if steps == [] then 0
    else Runs(steps[..|steps| - 1], c) + if steps[|steps| - 1] == RunClose(c) then 1 else 0
  }

  lemma {:induction false} RunsAreCounted(cfg: Config, steps: seq<Step>, c: Id)
    requires Play(cfg, steps).Some?
    ensures var s := Play(cfg, steps).value;
            if c in s.clients then
              s.clients[c].box.ran == Runs(steps, c) + if s.clients[c].session.Refused? then 1 else 0
            else Runs(steps, c) == 0
  {
    if steps != [] {
      RunsAreCounted(cfg, steps[..|steps| - 1], c);
    }
  }

  /**
   A publication that has run to its end has reached every connection of its
   snapshot exactly once and no other, unless a close of that connection was asked for.
   */
  lemma {:induction false} PublishedExactlyOnce(cfg: Config, steps: seq<Step>, k: nat, c: Id)
    requires Play(cfg, steps).Some?
    requires var s := Play(cfg, steps).value;
             k < |s.pubs| && s.pubs[k].remaining == {} && c in s.clients && s.clients[c].box.calls == 0
    ensures var s := Play(cfg, steps).value;
            multiset(s.clients[c].taken + s.clients[c].box.send)[Event(k)] == if c in s.pubs[k].targets then 1 else 0
  {
    PlayKeepsFanOut(cfg, steps);
    PlayKeepsClients(cfg, steps);
    var s := Play(cfg, steps).value;
    assert ClientInv(cfg, s.clients[c]);
    assert OfferedOnce(s, c, k);
  }

  // ---- Nobody waits for anybody ----

  lemma PlayOneMore(cfg: Config, steps: seq<Step>, step: Step)
    requires Play(cfg, steps).Some? && Enabled(cfg, Play(cfg, steps).value, step)
    ensures Play(cfg, steps + [step]) == Some(Do(cfg, Play(cfg, steps).value, step))
  {
    assert (steps + [step])[..|steps|] == steps;
  }

  /**
   At every moment a publisher can make its next offer, to whichever connection of its snapshot
   is left, and a handler can reply or leave: full queues, ended connections and a closed hub
   hold neither up.
   */
  lemma {:induction false} NobodyWaits(cfg: Config, steps: seq<Step>, k: nat, c: Id, text: string, pickDone: bool)
    requires Play(cfg, steps).Some?
    ensures var s := Play(cfg, steps).value;
            && (k < |s.pubs| && c in s.pubs[k].remaining ==> Play(cfg, steps + [Offer(k, c, pickDone)]).Some?)
            && (c in s.clients && s.clients[c].session.Serving? ==>
                  Play(cfg, steps + [Reply(c, text, pickDone)]).Some? && Play(cfg, steps + [Leave(c)]).Some?)
  {
    PlayKeepsFanOut(cfg, steps);
    var s := Play(cfg, steps).value;
    if k < |s.pubs| && c in s.pubs[k].remaining {
      PlayOneMore(cfg, steps, Offer(k, c, pickDone));
    }
    if c in s.clients && s.clients[c].session.Serving? {
      PlayOneMore(cfg, steps, Reply(c, text, pickDone));
      PlayOneMore(cfg, steps, Leave(c));
    }
  }

  /** After `steps` the k-th publication has `left` still to be offered its event. */
  ghost predicate IsLeft(cfg: Config, steps: seq<Step>, k: nat, left: set<Id>) {
    Play(cfg, steps).Some? && k < |Play(cfg, steps).value.pubs| && Play(cfg, steps).value.pubs[k].remaining == left
  }

  lemma OfferLeavesFewer(cfg: Config, steps: seq<Step>, k: nat, left: set<Id>, c: Id)
    requires IsLeft(cfg, steps, k, left) && c in left
    ensures IsLeft(cfg, steps + [Offer(k, c, false)], k, left - {c})
  {
    PlayKeepsFanOut(cfg, steps);
    PlayOneMore(cfg, steps, Offer(k, c, false));
  }

  /** A publication can run to its end by itself, whatever else has stopped: one offer for each connection left. */
  lemma {:induction false} PublicationCanEnd(cfg: Config, steps: seq<Step>, k: nat, left: set<Id>)
    returns (more: seq<Step>)
    requires IsLeft(cfg, steps, k, left)
    ensures IsLeft(cfg, steps + more, k, {}) && |more| == |left|
    ensures forall step | step in more :: step.Offer? && step.k == k
    decreases |left|
  {
    more := [];
    if left == {} {
      assert steps + more == steps;
    } else {
      var c :| c in left;
      OfferLeavesFewer(cfg, steps, k, left, c);
      more := PublicationCanEnd(cfg, steps + [Offer(k, c, false)], k, left - {c});
      assert steps + [Offer(k, c, false)] + more == steps + ([Offer(k, c, false)] + more);
      more := [Offer(k, c, false)] + more;
    }
  }

  /** The writer alone can take everything that is queued, in order. */
  lemma {:induction false} WriterCanDrain(cfg: Config, steps: seq<Step>, c: Id) returns (more: seq<Step>)
    requires Play(cfg, steps).Some? && c in Play(cfg, steps).value.clients
    ensures Play(cfg, steps + more).Some? && c in Play(cfg, steps + more).value.clients
    ensures var x, x' := Play(cfg, steps).value.clients[c], Play(cfg, steps + more).value.clients[c];
            x'.box.send == [] && x'.taken == x.taken + x.box.send
    ensures forall step | step in more :: step == Take(c)
    decreases |Play(cfg, steps).value.clients[c].box.send|
  {
    var x := Play(cfg, steps).value.clients[c];
    more := [];
    if x.box.send == [] {
      assert steps + more == steps;
    } else {
      PlayOneMore(cfg, steps, Take(c));
      more := WriterCanDrain(cfg, steps + [Take(c)], c);
      assert steps + [Take(c)] + more == steps + ([Take(c)] + more);
      more := [Take(c)] + more;
      assert x.taken + [x.box.send[0]] + x.box.send[1..] == x.taken + x.box.send;
    }
  }
}
