/**
 The subscription index of the WebSocket hub: which connections follow each
 topic, and which topics each connection follows. `Index` is the value, with
 what each locked section does to it; `Hub` and `Conn` are the objects.
 */
module Hub {
  import opened Wrappers

  datatype Index<C(==)> = Index(conns: set<C>, topics: map<string, set<C>>, mine: map<C, set<string>>, closed: bool) {
    function Subscribers(topic: string): set<C> {
      if topic in topics then topics[topic] else {}
    }

    function TopicsOf(c: C): set<string> {
      if c in mine then mine[c] else {}
    }

    ghost predicate NoEmptyTopic() {
      forall t | t in topics :: topics[t] != {}
    }

    /** Whoever is listed under a topic follows it. */
    ghost predicate Forward() {
      forall t, c | c in Subscribers(t) :: t in TopicsOf(c)
    }

    /** Whoever follows a topic is listed under it; closing forgets the lists and not the connections. */
    ghost predicate Backward() {
      forall c, t | c in mine && t in TopicsOf(c) :: c in Subscribers(t)
    }

    ghost predicate Consistent() {
      NoEmptyTopic() && Forward() && (!closed ==> Backward())
    }
  }

  /** `topics` with `c` taken out of each of `ts`, and without the lists that leaves empty. */
  function Without<C>(topics: map<string, set<C>>, c: C, ts: set<string>): map<string, set<C>> {
    map t | t in topics && (t in ts ==> topics[t] - {c} != {}) :: if t in ts then topics[t] - {c} else topics[t]
  }

  function Added<C>(ix: Index<C>, c: C): Index<C> {
    if ix.closed then ix else ix.(conns := ix.conns + {c})
  }

  function Subscribed<C>(ix: Index<C>, c: C, topic: string): Index<C> {
    ix.(topics := ix.topics[topic := ix.Subscribers(topic) + {c}], mine := ix.mine[c := ix.TopicsOf(c) + {topic}])
  }

  function Unsubscribed<C>(ix: Index<C>, c: C, topic: string): Index<C> {
    ix.(topics := Without(ix.topics, c, {topic}), mine := ix.mine[c := ix.TopicsOf(c) - {topic}])
  }

  function Removed<C>(ix: Index<C>, c: C): Index<C> {
    ix.(conns := ix.conns - {c}, topics := Without(ix.topics, c, ix.TopicsOf(c)), mine := ix.mine[c := {}])
  }

  function Closed<C>(ix: Index<C>): Index<C> {
    ix.(conns := {}, topics := map[], closed := true)
  }

  function SubscribedAll<C>(ix: Index<C>, c: C, topics: seq<string>): Index<C> {
    if topics == [] then ix else Subscribed(SubscribedAll(ix, c, topics[..|topics| - 1]), c, topics[|topics| - 1])
  }

  function UnsubscribedAll<C>(ix: Index<C>, c: C, topics: seq<string>): Index<C> {
    if topics == [] then ix else Unsubscribed(UnsubscribedAll(ix, c, topics[..|topics| - 1]), c, topics[|topics| - 1])
  }

  // ---- What each locked section keeps ----

  lemma SameListsStayConsistent<C>(ix: Index<C>, ix': Index<C>)
    requires ix.Consistent() && ix'.topics == ix.topics && ix'.mine == ix.mine && ix'.closed == ix.closed
    ensures ix'.Consistent()
  {
    forall t, d | d in ix'.Subscribers(t)
      ensures t in ix'.TopicsOf(d)
    {
      assert d in ix.Subscribers(t) && t in ix.TopicsOf(d);
    }
    forall d, t | d in ix'.mine && t in ix'.TopicsOf(d) && !ix.closed
      ensures d in ix'.Subscribers(t)
    {
      assert d in ix.mine && t in ix.TopicsOf(d) && d in ix.Subscribers(t);
    }
  }

  lemma {:induction false} SubscribedIsConsistent<C>(ix: Index<C>, c: C, topic: string)
    requires ix.Consistent()
    ensures Subscribed(ix, c, topic).Consistent()
    ensures c in Subscribed(ix, c, topic).Subscribers(topic)
  {
    var ix' := Subscribed(ix, c, topic);
    forall t, d | d in ix'.Subscribers(t)
      ensures t in ix'.TopicsOf(d)
    {
      if d in ix.Subscribers(t) {
        assert t in ix.TopicsOf(d);
      }
    }
    forall d, t | d in ix'.mine && t in ix'.TopicsOf(d) && !ix.closed
      ensures d in ix'.Subscribers(t)
    {
      if t in ix.TopicsOf(d) {
        assert d in ix.mine && d in ix.Subscribers(t);
      }
    }
  }

  /** Who is listed once `c` leaves the topics `ts`. */
  lemma WithoutSubscribers<C>(ix: Index<C>, c: C, ts: set<string>, t: string)
    ensures ix.(topics := Without(ix.topics, c, ts)).Subscribers(t) == ix.Subscribers(t) - if t in ts then {c} else {}
  {
  }

  lemma WithoutIsConsistent<C>(ix: Index<C>, c: C, ts: set<string>, ix': Index<C>)
    requires ix.Consistent() && ix'.closed == ix.closed
    requires ix'.topics == Without(ix.topics, c, ts) && ix'.mine == ix.mine[c := ix.TopicsOf(c) - ts]
    ensures ix'.Consistent()
    ensures forall t | t in ts :: c !in ix'.Subscribers(t)
    ensures forall d, t | d != c && d in ix.Subscribers(t) :: d in ix'.Subscribers(t)
    ensures forall d, t | d in ix'.Subscribers(t) :: d in ix.Subscribers(t)
  {
    forall t, d | d in ix'.Subscribers(t)
      ensures t in ix'.TopicsOf(d) && d in ix.Subscribers(t)
    {
      WithoutSubscribers(ix, c, ts, t);
      assert d in ix.Subscribers(t) && t in ix.TopicsOf(d);
    }
    forall d, t | d in ix'.mine && t in ix'.TopicsOf(d) && !ix.closed
      ensures d in ix'.Subscribers(t)
    {
      assert t in ix.TopicsOf(d) && d in ix.mine;
      WithoutSubscribers(ix, c, ts, t);
    }
    forall d, t | d != c && d in ix.Subscribers(t)
      ensures d in ix'.Subscribers(t)
    {
      WithoutSubscribers(ix, c, ts, t);
    }
    forall t | t in ts
      ensures c !in ix'.Subscribers(t)
    {
      WithoutSubscribers(ix, c, ts, t);
    }
  }

  lemma {:induction false} UnsubscribedIsConsistent<C>(ix: Index<C>, c: C, topic: string)
    requires ix.Consistent()
    ensures Unsubscribed(ix, c, topic).Consistent()
    ensures c !in Unsubscribed(ix, c, topic).Subscribers(topic)
  {
    WithoutIsConsistent(ix, c, {topic}, Unsubscribed(ix, c, topic));
  }

  /** Removing a connection takes it off every list, even off those it joined after the hub closed. */
  lemma {:induction false} RemovedIsNowhere<C>(ix: Index<C>, c: C)
    requires ix.Consistent()
    ensures Removed(ix, c).Consistent() && c !in Removed(ix, c).conns && Removed(ix, c).TopicsOf(c) == {}
    ensures forall t :: c !in Removed(ix, c).Subscribers(t)
    ensures forall d, t | d != c && d in ix.Subscribers(t) :: d in Removed(ix, c).Subscribers(t)
    ensures forall d, t | d in Removed(ix, c).Subscribers(t) :: d in ix.Subscribers(t)
  {
    assert ix.TopicsOf(c) - ix.TopicsOf(c) == {};
    WithoutIsConsistent(ix, c, ix.TopicsOf(c), Removed(ix, c));
  }

  lemma WithoutMore<C>(topics: map<string, set<C>>, c: C, ts: set<string>, t: string)
    requires forall u | u in topics :: topics[u] != {}
    ensures Without(Without(topics, c, ts), c, {t}) == Without(topics, c, ts + {t})
  {
    var once, both := Without(topics, c, ts), Without(topics, c, ts + {t});
    forall u | u in topics
      ensures u in Without(once, c, {t}) <==> u in both
      ensures u in both ==> Without(once, c, {t})[u] == both[u]
    {
      assert topics[u] - {c} - {c} == topics[u] - {c};
    }
  }

  lemma {:induction false} SubscribedAllAdds<C>(ix: Index<C>, c: C, topics: seq<string>)
    ensures var ix' := SubscribedAll(ix, c, topics);
            && ix'.TopicsOf(c) == ix.TopicsOf(c) + (set t | t in topics)
            && ix'.conns == ix.conns && ix'.closed == ix.closed
            && (forall t :: ix'.Subscribers(t) == ix.Subscribers(t) + if t in topics then {c} else {})
            && (forall d | d != c :: ix'.TopicsOf(d) == ix.TopicsOf(d))
  {
    if topics != [] {
      var n := |topics| - 1;
      SubscribedAllAdds(ix, c, topics[..n]);
      SubscribedAdds(SubscribedAll(ix, c, topics[..n]), c, topics[n]);
      assert topics == topics[..n] + [topics[n]];
    }
  }

  lemma SubscribedAdds<C>(ix: Index<C>, c: C, topic: string)
    ensures var ix' := Subscribed(ix, c, topic);
            && ix'.TopicsOf(c) == ix.TopicsOf(c) + {topic}
            && ix'.conns == ix.conns && ix'.closed == ix.closed
            && (forall t :: ix'.Subscribers(t) == ix.Subscribers(t) + if t == topic then {c} else {})
            && (forall d | d != c :: ix'.TopicsOf(d) == ix.TopicsOf(d))
  {
  }

  lemma {:induction false} UnsubscribedAllRemoves<C>(ix: Index<C>, c: C, topics: seq<string>)
    ensures var ix' := UnsubscribedAll(ix, c, topics);
            && ix'.TopicsOf(c) == ix.TopicsOf(c) - (set t | t in topics)
            && ix'.conns == ix.conns && ix'.closed == ix.closed
            && (forall t :: ix'.Subscribers(t) == ix.Subscribers(t) - if t in topics then {c} else {})
            && (forall d | d != c :: ix'.TopicsOf(d) == ix.TopicsOf(d))
  {
    if topics != [] {
      var n := |topics| - 1;
      UnsubscribedAllRemoves(ix, c, topics[..n]);
      UnsubscribedRemoves(UnsubscribedAll(ix, c, topics[..n]), c, topics[n]);
      assert topics == topics[..n] + [topics[n]];
    }
  }

  lemma UnsubscribedRemoves<C>(ix: Index<C>, c: C, topic: string)
    ensures var ix' := Unsubscribed(ix, c, topic);
            && ix'.TopicsOf(c) == ix.TopicsOf(c) - {topic}
            && ix'.conns == ix.conns && ix'.closed == ix.closed
            && (forall t :: ix'.Subscribers(t) == ix.Subscribers(t) - if t == topic then {c} else {})
            && (forall d | d != c :: ix'.TopicsOf(d) == ix.TopicsOf(d))
  {
    forall t
      ensures Unsubscribed(ix, c, topic).Subscribers(t) == ix.Subscribers(t) - if t == topic then {c} else {}
    {
      WithoutSubscribers(ix, c, {topic}, t);
    }
  }

  /** Closing lists nobody and leaves what each connection follows. */
  lemma {:induction false} ClosedForgets<C>(ix: Index<C>)
    ensures Closed(ix).closed && Closed(ix).conns == {} && forall t :: Closed(ix).Subscribers(t) == {}
    ensures forall c :: Closed(ix).TopicsOf(c) == ix.TopicsOf(c)
  {
  }

  lemma OneTopicMore<C>(ix: Index<C>, c: C, ts: seq<string>, i: nat)
    requires i < |ts|
    ensures SubscribedAll(ix, c, ts[..i + 1]) == Subscribed(SubscribedAll(ix, c, ts[..i]), c, ts[i])
    ensures UnsubscribedAll(ix, c, ts[..i + 1]) == Unsubscribed(UnsubscribedAll(ix, c, ts[..i]), c, ts[i])
  {
    assert ts[..i + 1][..i] == ts[..i];
  }

  // ---- The objects ----

  /**
   The sending side of a connection: queued frames, how often its close has been
   called and how many of those calls have run, and how often they closed its done channel.
   */
  datatype Outbox<F> = Outbox(send: seq<F>, calls: nat, ran: nat, closed: nat) {
    predicate Done() {
      closed > 0
    }
  }

  /**
   What offering a frame does: it is queued, or skipped because the connection
   is done, or dropped with a close on its way because the queue is full.
   `pickDone` settles the choice when both the queue and `done` are ready.
   */
  function Offered<F>(o: Outbox<F>, sendBuffer: nat, frame: F, pickDone: bool): Outbox<F> {
    if |o.send| < sendBuffer && !(o.Done() && pickDone) then o.(send := o.send + [frame])
    else if o.Done() then o
    else CloseCalled(o)
  }

  /**
   An open connection with room gets the frame and no close; an open one that is full gets
   one call of its close and no frame; a done one gets no close, and a frame at most if it has room.
   */
  lemma {:induction false} OfferedWhereThereIsRoom<F>(o: Outbox<F>, sendBuffer: nat, frame: F, pickDone: bool)
    ensures var o' := Offered(o, sendBuffer, frame, pickDone);
            && o'.ran == o.ran && o'.closed == o.closed
            && (o.closed == 0 && |o.send| < sendBuffer ==> o'.send == o.send + [frame] && o'.calls == o.calls)
            && (o.closed == 0 && |o.send| >= sendBuffer ==> o'.send == o.send && o'.calls == o.calls + 1)
            && (o.closed > 0 && |o.send| >= sendBuffer ==> o' == o)
            && (o.closed > 0 && |o.send| < sendBuffer ==>
                  o'.calls == o.calls && o'.send == if pickDone then o.send else o.send + [frame])
  {
  }

  function CloseCalled<F>(o: Outbox<F>): Outbox<F> {
    o.(calls := o.calls + 1)
  }

  /** One call of close: only the first to run closes the done channel, which a second time would panic. */
  function CloseRun<F>(o: Outbox<F>): Outbox<F> {
    o.(ran := o.ran + 1, closed := if o.ran == 0 then o.closed + 1 else o.closed)
  }

  class Conn {
    const sendBuffer: nat
    var topics: set<string>
    var send: seq<string>
    var calls: nat
    var ran: nat
    var closed: nat

    constructor (sendBuffer: nat)
      ensures topics == {} && this.sendBuffer == sendBuffer && ToSend() == Outbox([], 0, 0, 0)
    {
      this.sendBuffer := sendBuffer;
      topics, send, calls, ran, closed := {}, [], 0, 0, 0;
    }

    ghost function ToSend(): Outbox<string>
      reads this`send, this`calls, this`ran, this`closed
    {
      Outbox(send, calls, ran, closed)
    }

    method Enqueue(frame: string, pickDone: bool)
      modifies this`send, this`calls
      ensures ToSend() == Offered(old(ToSend()), sendBuffer, frame, pickDone)
      ensures old(closed) == 0 && |old(send)| < sendBuffer ==> send == old(send) + [frame] && calls == old(calls)
      ensures old(closed) == 0 && |old(send)| >= sendBuffer ==> send == old(send) && calls == old(calls) + 1
      ensures old(closed) > 0 ==> calls == old(calls) && (send == old(send) || send == old(send) + [frame])
    {
      if |send| < sendBuffer && !(closed > 0 && pickDone) {
        send := send + [frame];
      } else if closed == 0 {
        calls := calls + 1;
      }
    }

    /** Runs a call that was made. */
    method Close()
      modifies this`ran, this`closed
      ensures ToSend() == CloseRun(old(ToSend()))
    {
      if ran == 0 {
        closed := closed + 1;
      }
      ran := ran + 1;
    }
  }

  /** A frame from the client, with the topics it names. */
  datatype Inbound = Ping | Subscribe(topics: seq<string>) | Unsubscribe(topics: seq<string>) | Unknown

  datatype Answer = Pong | SubscribedTo(topics: seq<string>) | UnsubscribedFrom(topics: seq<string>)
    | NoTopics | TooMany | Forbidden(topic: string) | UnknownType

  /** The first topic of a frame that may not be followed. */
  function FirstForbidden(topics: seq<string>, allowed: string -> bool): Option<string> {
    if topics == [] then None
    else if !allowed(topics[0]) then Some(topics[0])
    else FirstForbidden(topics[1..], allowed)
  }

  /** How a frame is answered: only the topics already followed, the bound and the rules matter. */
  function AnswerTo(following: nat, maxTopics: nat, frame: Inbound, allowed: string -> bool): Answer {
    match frame
    case Ping => Pong
    case Unknown => UnknownType
    case Unsubscribe(topics) => UnsubscribedFrom(topics)
    case Subscribe(topics) =>
      if topics == [] then NoTopics
      else if following + |topics| > maxTopics then TooMany
      else
        var refused := FirstForbidden(topics, allowed);
        if refused.Some? then Forbidden(refused.value) else SubscribedTo(topics)
  }

  /** A subscribe frame is accepted exactly when it names topics, they fit, and every one is allowed. */
  lemma {:induction false} SubscribeNeedsEveryTopic(following: nat, maxTopics: nat, topics: seq<string>,
                                                    allowed: string -> bool)
    ensures AnswerTo(following, maxTopics, Subscribe(topics), allowed) == SubscribedTo(topics)
       <==> topics != [] && following + |topics| <= maxTopics && forall t | t in topics :: allowed(t)
    ensures FirstForbidden(topics, allowed).None? <==> forall t | t in topics :: allowed(t)
    decreases |topics|
  {
    if topics != [] {
      SubscribeNeedsEveryTopic(following, maxTopics, topics[1..], allowed);
      assert topics == [topics[0]] + topics[1..];
    }
  }

  /**
   Every frame's answer: a ping its pong, an unsubscribe frame all its topics, and a refused
   subscribe frame the first of the three reasons there is.
   */
  lemma {:induction false} EveryAnswer(following: nat, maxTopics: nat, topics: seq<string>, allowed: string -> bool)
    ensures AnswerTo(following, maxTopics, Ping, allowed) == Pong
    ensures AnswerTo(following, maxTopics, Unknown, allowed) == UnknownType
    ensures AnswerTo(following, maxTopics, Unsubscribe(topics), allowed) == UnsubscribedFrom(topics)
    ensures AnswerTo(following, maxTopics, Subscribe(topics), allowed) == NoTopics <==> topics == []
    ensures AnswerTo(following, maxTopics, Subscribe(topics), allowed) == TooMany
       <==> topics != [] && following + |topics| > maxTopics
    ensures forall i | 0 <= i < |topics| && following + |topics| <= maxTopics && !allowed(topics[i]) ::
              (forall j | 0 <= j < i :: allowed(topics[j])) ==>
              AnswerTo(following, maxTopics, Subscribe(topics), allowed) == Forbidden(topics[i])
  {
    forall i | 0 <= i < |topics| && !allowed(topics[i]) && forall j | 0 <= j < i :: allowed(topics[j])
      ensures FirstForbidden(topics, allowed) == Some(topics[i])
    {
      FirstForbiddenIs(topics, allowed, i);
    }
  }

  lemma {:induction false} FirstForbiddenIs(topics: seq<string>, allowed: string -> bool, i: nat)
    requires i < |topics| && !allowed(topics[i]) && forall j | 0 <= j < i :: allowed(topics[j])
    ensures FirstForbidden(topics, allowed) == Some(topics[i])
    decreases |topics|
  {
    if i > 0 {
      assert topics[1..][i - 1] == topics[i];
      FirstForbiddenIs(topics[1..], allowed, i - 1);
    }
  }

  class Hub {
    const maxTopics: nat
    var conns: set<Conn>
    var topics: map<string, set<Conn>>
    var closed: bool
    /** Every connection that was ever built for this hub. */
    ghost var known: set<Conn>

    ghost function Abstract(): Index<Conn>
      reads this, known`topics
    {
      Index(conns, topics, map c | c in known :: c.topics, closed)
    }

    ghost predicate Valid()
      reads this, known`topics
    {
      Abstract().Consistent() && conns <= known && (forall c | c in known :: |c.topics| <= maxTopics)
    }

    constructor (maxTopics: nat)
      ensures Valid() && this.maxTopics == maxTopics && known == {}
      ensures Abstract() == Index({}, map[], map[], false)
    {
      this.maxTopics := maxTopics;
      conns, topics, closed, known := {}, map[], false, {};
    }

    method Add(c: Conn) returns (ok: bool)
      requires Valid() && c in known
      modifies this`conns
      ensures Valid() && ok == !closed
      ensures Abstract() == Added(old(Abstract()), c)
    {
      ghost var ix := Abstract();
      if closed {
        return false;
      }
      conns := conns + {c};
      ok := true;
      SameListsStayConsistent(ix, Abstract());
    }

    method UnsubscribeLocked(c: Conn, topic: string)
      requires c in known
      modifies this`topics, c`topics
      ensures c.topics == old(c.topics) - {topic} && topics == Without(old(topics), c, {topic})
      ensures |c.topics| <= |old(c.topics)|
    {
      c.topics := c.topics - {topic};
      if topic in topics {
        var followers := topics[topic] - {c};
        if followers == {} {
          topics := topics - {topic};
        } else {
          topics := topics[topic := followers];
        }
      }
    }

    method UnsubscribeEverywhere(c: Conn)
      requires c in known && forall t | t in topics :: topics[t] != {}
      modifies this`topics, c`topics
      ensures c.topics == {} && topics == Without(old(topics), c, old(c.topics))
    {
      var todo := c.topics;
      while todo != {}
        invariant todo == c.topics && todo <= old(c.topics)
        invariant topics == Without(old(topics), c, old(c.topics) - todo)
      {
        var t :| t in todo;
        WithoutMore(old(topics), c, old(c.topics) - todo, t);
        assert old(c.topics) - (todo - {t}) == old(c.topics) - todo + {t};
        UnsubscribeLocked(c, t);
        todo := todo - {t};
      }
      assert old(c.topics) - {} == old(c.topics);
    }

    method Remove(c: Conn)
      requires Valid() && c in known
      modifies this`conns, this`topics, c`topics
      ensures Valid() && Abstract() == Removed(old(Abstract()), c)
      ensures forall t :: c !in Abstract().Subscribers(t)
    {
      ghost var ix := Abstract();
      RemovedIsNowhere(ix, c);
      conns := conns - {c};
      UnsubscribeEverywhere(c);
      assert Abstract().mine == Removed(ix, c).mine;
    }

    method SubscribeTo(c: Conn, topic: string)
      requires Abstract().Consistent() && c in known
      modifies this`topics, c`topics
      ensures Abstract() == Subscribed(old(Abstract()), c, topic) && Abstract().Consistent()
    {
      ghost var ix := Abstract();
      SubscribedIsConsistent(ix, c, topic);
      var followers := if topic in topics then topics[topic] else {};
      topics := topics[topic := followers + {c}];
      c.topics := c.topics + {topic};
      assert Abstract() == Subscribed(ix, c, topic);
    }

    method UnsubscribeFrom(c: Conn, topic: string)
      requires Valid() && c in known
      modifies this`topics, c`topics
      ensures Valid() && Abstract() == Unsubscribed(old(Abstract()), c, topic)
    {
      ghost var ix := Abstract();
      UnsubscribeLocked(c, topic);
      assert Abstract().mine == ix.mine[c := ix.TopicsOf(c) - {topic}];
      UnsubscribedIsConsistent(ix, c, topic);
    }

    /** Forgets every connection, and calls the close of each once. */
    method Close()
      requires Valid()
      modifies this`conns, this`topics, this`closed, known`calls
      ensures Valid() && Abstract() == Closed(old(Abstract()))
      ensures forall c | c in known ::
                c.ToSend() == if c in old(conns) then CloseCalled(old(c.ToSend())) else old(c.ToSend())
    {
      var todo := conns;
      closed := true;
      conns := {};
      topics := map[];
      while todo != {}
        invariant todo <= old(conns) && Abstract() == Closed(old(Abstract()))
        invariant forall c | c in known ::
                    c.ToSend() == if c in old(conns) - todo then CloseCalled(old(c.ToSend())) else old(c.ToSend())
      {
        var c :| c in todo;
        c.calls := c.calls + 1;
        todo := todo - {c};
      }
    }

    method SubscribeToAll(c: Conn, ts: seq<string>)
      requires Valid() && c in known && |c.topics| + |ts| <= maxTopics
      modifies this`topics, c`topics
      ensures Valid() && Abstract() == SubscribedAll(old(Abstract()), c, ts)
    {
      ghost var ix := Abstract();
      for i := 0 to |ts|
        invariant Abstract() == SubscribedAll(ix, c, ts[..i]) && Abstract().Consistent()
        invariant |c.topics| <= |old(c.topics)| + i
        invariant forall d | d in known && d != c :: d.topics == old(d.topics)
      {
        OneTopicMore(ix, c, ts, i);
        SubscribeTo(c, ts[i]);
      }
      assert ts[..|ts|] == ts;
    }

    method UnsubscribeFromAll(c: Conn, ts: seq<string>)
      requires Valid() && c in known
      modifies this`topics, c`topics
      ensures Valid() && Abstract() == UnsubscribedAll(old(Abstract()), c, ts)
    {
      ghost var ix := Abstract();
      for i := 0 to |ts|
        invariant Abstract() == UnsubscribedAll(ix, c, ts[..i]) && Valid()
      {
        OneTopicMore(ix, c, ts, i);
        UnsubscribeFrom(c, ts[i]);
      }
      assert ts[..|ts|] == ts;
    }

    /** Offers the frame once to every connection that follows the topic, and to no other. */
    method Publish(topic: string, frame: string, pickDone: Conn -> bool)
      requires Valid()
      modifies known`send, known`calls
      ensures Abstract() == old(Abstract())
      ensures forall c | c in known && c in Abstract().Subscribers(topic) ::
                c.ToSend() == Offered(old(c.ToSend()), c.sendBuffer, frame, pickDone(c))
      ensures forall c | c in known && c !in Abstract().Subscribers(topic) :: c.ToSend() == old(c.ToSend())
    {
      var subs := if topic in topics then topics[topic] else {};
      assert subs == Abstract().Subscribers(topic);
      forall c | c in subs
        ensures c in known
      {
        assert c in Abstract().Subscribers(topic) && topic in Abstract().TopicsOf(c);
      }
      var todo := subs;
      while todo != {}
        invariant todo <= subs && Abstract() == old(Abstract())
        invariant forall c | c in subs - todo ::
                    c.ToSend() == Offered(old(c.ToSend()), c.sendBuffer, frame, pickDone(c))
        invariant forall c | c in known - (subs - todo) :: c.ToSend() == old(c.ToSend())
      {
        var c :| c in todo;
        c.Enqueue(frame, pickDone(c));
        todo := todo - {c};
      }
    }

    /** Dispatches one frame. A subscribe frame follows all its topics or, refused, changes nothing. */
    method Handle(c: Conn, frame: Inbound, allowed: string -> bool) returns (answer: Answer)
      requires Valid() && c in known
      modifies this`topics, c`topics
      ensures Valid()
      ensures answer == AnswerTo(|old(c.topics)|, maxTopics, frame, allowed)
      ensures Abstract() == match answer
                            case SubscribedTo(ts) => SubscribedAll(old(Abstract()), c, ts)
                            case UnsubscribedFrom(ts) => UnsubscribedAll(old(Abstract()), c, ts)
                            case _ => old(Abstract())
    {
      answer := AnswerTo(|c.topics|, maxTopics, frame, allowed);
      match answer
      case SubscribedTo(ts) => SubscribeToAll(c, ts);
      case UnsubscribedFrom(ts) => UnsubscribeFromAll(c, ts);
      case _ =>
    }
  }
}
