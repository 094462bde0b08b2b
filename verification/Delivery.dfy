/**
 The router never gets stuck: whatever its goroutines have done so far, what was
 accepted can still be written to the last packet, without another read.
 */
module Delivery {
  import opened PacketHeap
  import opened Router
  import opened Wrappers

  /** From `s`, the steps `more` lead to `s'`; they read no frame and move no node. */
  ghost predicate Leads(c: Config, s: State, more: seq<Step>, s': State) {
    && Typed(c, s) && Play(c, s, more) == Some(s')
    && s'.accepted == s.accepted && |s'.readers| == |s.readers|
    && (forall step | step in more :: !step.Read? && !step.Place?)
  }

  lemma LeadsNowhere(c: Config, s: State)
    requires Typed(c, s)
    ensures Leads(c, s, [], s)
  {
  }

  lemma LeadsOne(c: Config, s: State, step: Step)
    requires Typed(c, s) && Enabled(c, s, step) && !step.Read? && !step.Place?
    ensures Leads(c, s, [step], Do(c, s, step))
  {
    PlayOneMore(c, s, [], step);
    assert [] + [step] == [step];
  }

  lemma {:induction false} PlayInTwo(c: Config, s: State, a: seq<Step>, b: seq<Step>)
    requires Typed(c, s) && Play(c, s, a).Some?
    ensures Play(c, s, a + b) == Play(c, Play(c, s, a).value, b)
  {
    if b == [] {
      assert a + b == a;
    } else {
      var n := |b| - 1;
      PlayInTwo(c, s, a, b[..n]);
      PlayOneMore(c, s, a + b[..n], b[n]);
      PlayOneMore(c, Play(c, s, a).value, b[..n], b[n]);
      assert a + b[..n] + [b[n]] == a + b && b[..n] + [b[n]] == b;
    }
  }

  lemma LeadsOn(c: Config, s: State, a: seq<Step>, s1: State, b: seq<Step>, s2: State)
    requires Leads(c, s, a, s1) && Leads(c, s1, b, s2)
    ensures Leads(c, s, a + b, s2)
  {
    PlayInTwo(c, s, a, b);
  }

  lemma LeadsThen(c: Config, s: State, step: Step, more: seq<Step>, s': State)
    requires Typed(c, s) && Enabled(c, s, step) && !step.Read? && !step.Place?
    requires Leads(c, Do(c, s, step), more, s')
    ensures Leads(c, s, [step] + more, s')
  {
    LeadsOne(c, s, step);
    LeadsOn(c, s, [step], Do(c, s, step), more, s');
  }

  // ---- The heap ----

  lemma {:induction false} SomeIsNext(bag: multiset<Packet>) returns (p: Packet)
    requires bag != multiset{}
    ensures IsNext(p, bag)
    decreases |bag|
  {
    p :| p in bag;
    var rest := bag - multiset{p};
    if rest != multiset{} {
      var q := SomeIsNext(rest);
      if Less(q, p) {
        p := q;
      }
    }
  }

  lemma {:induction false} SomeTimeIsLate(bag: multiset<Packet>) returns (now: int)
    ensures forall p | p in bag :: p.at <= now
    decreases |bag|
  {
    now := 0;
    if bag != multiset{} {
      var q :| q in bag;
      var before := SomeTimeIsLate(bag - multiset{q});
      now := if q.at > before then q.at else before;
    }
  }

  /** A drain comes to its end, back at the select, and no packet that was due stays. */
  lemma {:induction false} DrainEnds(c: Config, s: State) returns (more: seq<Step>, s': State)
    requires Typed(c, s) && s.phase.Draining?
    ensures Leads(c, s, more, s') && s'.phase.Selecting?
    ensures s'.readers == s.readers && s'.queue == s.queue
    ensures forall p | p in s'.pending :: p in s.pending && p.at > s.phase.now
    decreases |s.pending|
  {
    if s.pending != multiset{} {
      var p := SomeIsNext(s.pending);
      if p.at <= s.phase.now {
        var s1 := Do(c, s, Write(p));
        assert |s1.pending| < |s.pending|;
        more, s' := DrainEnds(c, s1);
        LeadsThen(c, s, Write(p), more, s');
        more := [Write(p)] + more;
        return;
      }
    }
    more, s' := [Rest], Do(c, s, Rest);
    LeadsOne(c, s, Rest);
  }

  /** A woken deliverer comes back to its select, and no packet that is due by `now` stays. */
  lemma WakeEnds(c: Config, s: State, now: int) returns (more: seq<Step>, s': State)
    requires Typed(c, s) && s.phase.Woken?
    ensures Leads(c, s, more, s') && s'.phase.Selecting?
    ensures s'.readers == s.readers && s'.queue == s.queue
    ensures forall p | p in s'.pending :: p in s.pending && p.at > now
  {
    more, s' := DrainEnds(c, Do(c, s, ReadClock(now)));
    LeadsThen(c, s, ReadClock(now), more, s');
    more := [ReadClock(now)] + more;
  }

  lemma SelectIsReached(c: Config, s: State) returns (more: seq<Step>, s': State)
    requires Typed(c, s)
    ensures Leads(c, s, more, s') && s'.phase.Selecting? && s'.readers == s.readers
  {
    match s.phase
    case Selecting =>
      more, s' := [], s;
      LeadsNowhere(c, s);
    case Woken => more, s' := WakeEnds(c, s, 0);
    case Draining(_) => more, s' := DrainEnds(c, s);
  }

  // ---- The channel and the readers ----

  /** The deliverer selects, and the channel and the heap are empty. */
  predicate IsQuiet(s: State) {
    s.phase.Selecting? && s.queue == [] && s.pending == multiset{}
  }

  lemma {:induction false} QueueEmpties(c: Config, s: State) returns (more: seq<Step>, s': State)
    requires Typed(c, s) && s.phase.Selecting?
    ensures Leads(c, s, more, s') && IsQuiet(s') && s'.readers == s.readers
    decreases |s.queue|
  {
    if s.queue == [] {
      var now := SomeTimeIsLate(s.pending);
      more, s' := WakeEnds(c, Do(c, s, TimerFires), now);
      LeadsThen(c, s, TimerFires, more, s');
      more := [TimerFires] + more;
      assert s'.pending == multiset{} by {
        assert forall p :: p !in s'.pending;
      }
    } else {
      var first, s1 := WakeEnds(c, Do(c, s, Receive), 0);
      LeadsThen(c, s, Receive, first, s1);
      var rest;
      rest, s' := QueueEmpties(c, s1);
      LeadsOn(c, s, [Receive] + first, s1, rest, s');
      more := [Receive] + first + rest;
    }
  }

  /** A reader that has an empty channel before it counts and sends its packet, and the deliverer writes it. */
  lemma ReaderFinishes(c: Config, s: State, i: nat) returns (more: seq<Step>, s': State)
    requires Typed(c, s) && IsQuiet(s) && i < |s.readers|
    ensures Leads(c, s, more, s') && IsQuiet(s') && s'.readers == s.readers[i := Idle]
  {
    match s.readers[i]
    case Idle =>
      more, s' := [], s;
      LeadsNowhere(c, s);
    case Counting(p, delivered) =>
      var s1 := Do(c, s, Count(i));
      LeadsOne(c, s, Count(i));
      if delivered {
        more, s' := SenderFinishes(c, s1, i);
        LeadsThen(c, s, Count(i), more, s');
        more := [Count(i)] + more;
      } else {
        more, s' := [Count(i)], s1;
      }
    case Sending(_) => more, s' := SenderFinishes(c, s, i);
  }

  lemma SenderFinishes(c: Config, s: State, i: nat) returns (more: seq<Step>, s': State)
    requires Typed(c, s) && IsQuiet(s) && i < |s.readers| && s.readers[i].Sending?
    ensures Leads(c, s, more, s') && IsQuiet(s') && s'.readers == s.readers[i := Idle]
  {
    more, s' := QueueEmpties(c, Do(c, s, Send(i)));
    LeadsThen(c, s, Send(i), more, s');
    more := [Send(i)] + more;
  }

  lemma {:induction false} ReadersFinish(c: Config, s: State, i: nat) returns (more: seq<Step>, s': State)
    requires Typed(c, s) && IsQuiet(s) && i <= |s.readers| && forall j | 0 <= j < i :: s.readers[j].Idle?
    ensures Leads(c, s, more, s') && IsQuiet(s') && forall r | r in s'.readers :: r.Idle?
    decreases |s.readers| - i
  {
    if i == |s.readers| {
      more, s' := [], s;
      LeadsNowhere(c, s);
    } else {
      var first, s1 := ReaderFinishes(c, s, i);
      var rest;
      rest, s' := ReadersFinish(c, s1, i + 1);
      LeadsOn(c, s, first, s1, rest, s');
      more := first + rest;
    }
  }

  /**
   After every interleaving, full channel or not, there are steps that read nothing more
   and after which every leg has written all that was accepted for it.
   */
  lemma {:induction false} AllCanBeDelivered(c: Config, steps: seq<Step>) returns (more: seq<Step>)
    requires c.Valid() && Play(c, Start(c), steps).Some?
    ensures Play(c, Start(c), steps + more).Some?
    ensures forall step | step in more :: !step.Read? && !step.Place?
    ensures forall leg :: Carried(Play(c, Start(c), steps + more).value.written, leg)
                          == Carried(Play(c, Start(c), steps).value.accepted, leg)
  {
    var s := Play(c, Start(c), steps).value;
    var a, s1 := SelectIsReached(c, s);
    var b, s2 := QueueEmpties(c, s1);
    var d, s3 := ReadersFinish(c, s2, 0);
    LeadsOn(c, s, a, s1, b, s2);
    LeadsOn(c, s, a + b, s2, d, s3);
    more := a + b + d;
    PlayInTwo(c, Start(c), steps, more);
    forall leg
      ensures Carried(s3.written, leg) == Carried(s.accepted, leg)
    {
      QuietMeansDelivered(c, steps + more, leg);
    }
  }
}
