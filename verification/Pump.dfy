/**
 The one loop that writes to a socket: frames from a source in its order, and a
 ping for each tick. The environment answers every poll, wait, write and ping,
 and decides when the ticker fires; a sequence of rounds is any finite part of
 a run against it.
 */
module Pump {
  import opened Wrappers

  datatype Frame = Frame(binary: bool, data: seq<bv8>)

  /** Why a pump ends: its context, its source, or the socket. */
  datatype Failure = CtxEnded | Stopped | SourceFailed(code: nat) | WriteFailed | PingFailed

  /** What `poll` answers: it never blocks. */
  datatype Poll = Ready(frame: Frame) | Nothing | PollFailed(failure: Failure)

  /**
   What `wait` answers. A channel source may hand over a frame; an adapted
   source only says that there may be one.
   */
  datatype Wait = Arrived(frame: Frame) | MaybeReady | Ticked | WaitFailed(failure: Failure)

  /**
   The environment's part in one round of the loop. `ticksEarly` and
   `ticksLate` are the ticker firing before the tick is looked for, and after
   that but before the write begins; `ctxDone...` is the context's state at the
   top, after a failed ping and after a failed write.
   */
  datatype Round = Round(
    ctxDone: bool, poll: Poll, wait: Wait, ticksEarly: bool, ticksLate: bool,
    pingOk: bool, ctxDoneAfterPing: bool, writeOk: bool, ctxDoneAfterWrite: bool)
  {
    predicate Ticks() {
      ticksEarly || ticksLate || (poll.Nothing? && wait.Ticked?)
    }
  }

  datatype Event = TickFired | Took(frame: Frame) | PingBegan | WriteBegan(frame: Frame)

  /** A failed write or ping reports the context's end once that has come: shutdown is not a failed peer. */
  function FailedWrite(ctxDone: bool, kind: Failure): Failure {
    if ctxDone then CtxEnded else kind
  }

  function Taken(trace: seq<Event>): seq<Frame> {
    if trace == [] then []
    else
      var e := trace[|trace| - 1];
      Taken(trace[..|trace| - 1]) + if e.Took? then [e.frame] else []
  }

  function Begun(trace: seq<Event>): seq<Frame> {
    if trace == [] then []
    else
      var e := trace[|trace| - 1];
      Begun(trace[..|trace| - 1]) + if e.WriteBegan? then [e.frame] else []
  }

  /** The number of ticks fired less the number of pings begun: never negative in a run of the pump. */
  function Owed(trace: seq<Event>): int {
    if trace == [] then 0
    else
      var e := trace[|trace| - 1];
      Owed(trace[..|trace| - 1]) + if e.TickFired? then 1 else if e.PingBegan? then -1 else 0
  }

  /** The writes begun since the oldest tick that no ping has answered, none when there is no such tick. */
  function Overdue(trace: seq<Event>): Option<nat> {
    if trace == [] then None
    else
      var before := Overdue(trace[..|trace| - 1]);
      match trace[|trace| - 1]
      case TickFired => if before.None? then Some(0) else before
      case PingBegan => None
      case WriteBegan(_) => if before.None? then None else Some(before.value + 1)
      case Took(_) => before
  }

  /** At every moment at most one write has begun since the oldest unanswered tick. */
  ghost predicate Prompt(trace: seq<Event>) {
    forall n | 0 <= n <= |trace| :: Overdue(trace[..n]).Some? ==> Overdue(trace[..n]).value <= 1
  }

  /** What `Prompt` means, without the bookkeeping: between a tick and the next ping at most one write begins. */
  lemma {:induction false} PromptMeans(trace: seq<Event>, i: nat, j: nat)
    requires Prompt(trace) && i < j <= |trace| && trace[i].TickFired?
    requires forall k | i < k < j :: !trace[k].PingBegan?
    ensures |Begun(trace[i..j])| <= 1
  {
    OverdueCounts(trace, i, j);
  }

  lemma {:induction false} OverdueCounts(trace: seq<Event>, i: nat, j: nat)
    requires i < j <= |trace| && trace[i].TickFired?
    requires forall k | i < k < j :: !trace[k].PingBegan?
    ensures Overdue(trace[..j]).Some? && |Begun(trace[i..j])| <= Overdue(trace[..j]).value
  {
    assert trace[..j][..j - 1] == trace[..j - 1];
    assert trace[i..j][..j - 1 - i] == trace[i..j - 1];
    if i < j - 1 {
      OverdueCounts(trace, i, j - 1);
    } else {
      assert trace[i..j - 1] == [];
    }
  }

  lemma Append(trace: seq<Event>, e: Event)
    ensures Taken(trace + [e]) == Taken(trace) + if e.Took? then [e.frame] else []
    ensures Begun(trace + [e]) == Begun(trace) + if e.WriteBegan? then [e.frame] else []
    ensures Owed(trace + [e]) == Owed(trace) + if e.TickFired? then 1 else if e.PingBegan? then -1 else 0
    ensures Overdue(trace + [e]) == match e
                                    case TickFired => if Overdue(trace).None? then Some(0) else Overdue(trace)
                                    case PingBegan => None
                                    case WriteBegan(_) =>
                                      if Overdue(trace).None? then None else Some(Overdue(trace).value + 1)
                                    case Took(_) => Overdue(trace)
  {
    assert (trace + [e])[..|trace|] == trace;
  }

  lemma StillPrompt(trace: seq<Event>, e: Event)
    requires Prompt(trace) && (Overdue(trace + [e]).Some? ==> Overdue(trace + [e]).value <= 1)
    ensures Prompt(trace + [e])
  {
    forall n | 0 <= n <= |trace| + 1
      ensures Overdue((trace + [e])[..n]).Some? ==> Overdue((trace + [e])[..n]).value <= 1
    {
      if n <= |trace| {
        assert (trace + [e])[..n] == trace[..n];
      } else {
        assert (trace + [e])[..n] == trace + [e];
      }
    }
  }

  /** The trace so far, with `held` taken and not begun, and an unanswered tick exactly when `tick`. */
  ghost predicate Running(pinging: bool, trace: seq<Event>, tick: bool, held: seq<Frame>) {
    && Taken(trace) == Begun(trace) + held
    && Prompt(trace) && Owed(trace) >= (if tick then 1 else 0)
    && (Overdue(trace).Some? <==> tick) && (tick ==> pinging && Overdue(trace).value <= 1)
    && (!pinging ==> forall e | e in trace :: !e.PingBegan?)
  }

  lemma Fires(pinging: bool, trace: seq<Event>, tick: bool, held: seq<Frame>)
    requires Running(pinging, trace, tick, held) && pinging
    ensures Running(pinging, trace + [TickFired], true, held)
    ensures !tick ==> Overdue(trace + [TickFired]) == Some(0)
  {
    Append(trace, TickFired);
    StillPrompt(trace, TickFired);
  }

  lemma Pings(pinging: bool, trace: seq<Event>, held: seq<Frame>)
    requires Running(pinging, trace, true, held)
    ensures Running(pinging, trace + [PingBegan], false, held)
  {
    Append(trace, PingBegan);
    StillPrompt(trace, PingBegan);
  }

  lemma Takes(pinging: bool, trace: seq<Event>, tick: bool, frame: Frame)
    requires Running(pinging, trace, tick, [])
    ensures Running(pinging, trace + [Took(frame)], tick, [frame])
  {
    Append(trace, Took(frame));
    StillPrompt(trace, Took(frame));
  }

  lemma Begins(pinging: bool, trace: seq<Event>, tick: bool, frame: Frame)
    requires Running(pinging, trace, tick, [frame]) && (tick ==> Overdue(trace) == Some(0))
    ensures Running(pinging, trace + [WriteBegan(frame)], tick, [])
  {
    Append(trace, WriteBegan(frame));
    StillPrompt(trace, WriteBegan(frame));
  }

  /** What holds of the trace wherever the pump ends: at most the last frame taken is not begun. */
  ghost predicate Fair(pinging: bool, trace: seq<Event>) {
    && Begun(trace) <= Taken(trace) && |Taken(trace)| <= |Begun(trace)| + 1
    && Prompt(trace) && Owed(trace) >= 0
    && (!pinging ==> forall e | e in trace :: !e.PingBegan?)
  }

  lemma RunningIsFair(pinging: bool, trace: seq<Event>, tick: bool, held: seq<Frame>)
    requires Running(pinging, trace, tick, held) && |held| <= 1
    ensures Fair(pinging, trace)
  {
  }

  /** The frame a round yields: polled, or else waited for. */
  function FrameOf(r: Round): Option<Frame> {
    if r.poll.Ready? then Some(r.poll.frame)
    else if r.poll.Nothing? && r.wait.Arrived? then Some(r.wait.frame)
    else None
  }

  /**
   What is seen of a frame, with a tick pending or not: a ping comes before the write,
   and a failed one instead of it.
   */
  function Sending(r: Round, tick: bool, frame: Frame): seq<Event> {
    [Took(frame)] + (if tick then [PingBegan] else [])
    + if tick && !r.pingOk then [] else (if r.ticksLate then [TickFired] else []) + [WriteBegan(frame)]
  }

  /** A tick that fires before it is looked for, unless one is pending. */
  function Early(r: Round, tick: bool): seq<Event> {
    if r.ticksEarly && !tick then [TickFired] else []
  }

  /** What is seen of a round once its early tick has fired. */
  function Acted(r: Round, tick: bool): seq<Event> {
    if FrameOf(r).Some? then Sending(r, tick, FrameOf(r).value)
    else if r.wait.Ticked? then (if tick then [] else [TickFired]) + [PingBegan]
    else []
  }

  /** What is seen of a round that finds a tick pending or not. */
  function Seen(r: Round, tick: bool): seq<Event> {
    if r.ctxDone || r.poll.PollFailed? then [] else Early(r, tick) + Acted(r, tick || r.ticksEarly)
  }

  /** Whether a round that was passed leaves a tick pending. */
  function Left(r: Round, tick: bool): bool {
    if FrameOf(r).Some? then r.ticksLate else !r.wait.Ticked? && (tick || r.ticksEarly)
  }

  /** Whether a tick is pending after these rounds. */
  function Pending(rounds: seq<Round>): bool {
    rounds != [] && Left(rounds[|rounds| - 1], Pending(rounds[..|rounds| - 1]))
  }

  /** How the pump ends over a frame, with a tick pending or not, if it does. */
  function SendingEnd(r: Round, tick: bool): Option<Failure> {
    if tick && !r.pingOk then Some(FailedWrite(r.ctxDoneAfterPing, PingFailed))
    else if !r.writeOk then Some(FailedWrite(r.ctxDoneAfterWrite, WriteFailed))
    else None
  }

  /** How the pump ends in a round that finds a tick pending or not, if it does. */
  function EndOf(r: Round, tick: bool): Option<Failure> {
    if r.ctxDone then Some(CtxEnded)
    else if r.poll.PollFailed? then Some(r.poll.failure)
    else if FrameOf(r).Some? then SendingEnd(r, tick || r.ticksEarly)
    else
      match r.wait
      case WaitFailed(failure) => Some(failure)
      case Ticked => if r.pingOk then None else Some(FailedWrite(r.ctxDoneAfterPing, PingFailed))
      case _ => None
  }

  /** A round that lets the pump go on has neither ended context, failed source, failed ping nor failed write. */
  predicate Passes(r: Round, tick: bool) {
    && !r.ctxDone && !r.poll.PollFailed? && (r.poll.Nothing? ==> !r.wait.WaitFailed?)
    && (FrameOf(r).Some? ==> r.writeOk && (tick || r.ticksEarly ==> r.pingOk))
    && (r.poll.Nothing? && r.wait.Ticked? ==> r.pingOk)
  }

  /**
   The failure is one that happened: what was seen of the round ends with the ping or the
   write that failed, and it is the context's end when that had come by then.
   */
  predicate Happened(r: Round, seen: seq<Event>, f: Failure) {
    || (r.ctxDone && f == CtxEnded && seen == [])
    || (r.poll == PollFailed(f) && seen == [])
    || (r.poll.Nothing? && r.wait == WaitFailed(f))
    || (seen != [] && seen[|seen| - 1].PingBegan? && !r.pingOk
        && f == if r.ctxDoneAfterPing then CtxEnded else PingFailed)
    || (seen != [] && seen[|seen| - 1].WriteBegan? && !r.writeOk
        && f == if r.ctxDoneAfterWrite then CtxEnded else WriteFailed)
  }

  /** A round ends the pump exactly when something in it fails, and with a failure that happened. */
  lemma {:induction false} EndOfIsReal(r: Round, tick: bool)
    ensures EndOf(r, tick).None? <==> Passes(r, tick)
    ensures EndOf(r, tick).Some? ==> Happened(r, Seen(r, tick), EndOf(r, tick).value)
  {
    if FrameOf(r).Some? && !r.ctxDone {
      var tick1 := tick || r.ticksEarly;
      var sent := Sending(r, tick1, FrameOf(r).value);
      assert Seen(r, tick)[|Seen(r, tick)| - 1] == sent[|sent| - 1];
    }
  }

  /** How the pump ends in these rounds, if it does: as the first round that ends it does. */
  function EndIn(rounds: seq<Round>): Option<Failure> {
    if rounds == [] then None
    else
      var n := |rounds| - 1;
      if EndIn(rounds[..n]).Some? then EndIn(rounds[..n]) else EndOf(rounds[n], Pending(rounds[..n]))
  }

  /** Everything seen in these rounds, up to the one that ends the pump. */
  function TraceOf(rounds: seq<Round>): seq<Event> {
    if rounds == [] then []
    else
      var n := |rounds| - 1;
      if EndIn(rounds[..n]).Some? then TraceOf(rounds[..n])
      else TraceOf(rounds[..n]) + Seen(rounds[n], Pending(rounds[..n]))
  }

  /** How many of these rounds the pump lives to see, the one that ends it included. */
  function Lived(rounds: seq<Round>): (n: nat)
    ensures n <= |rounds|
  {
    if rounds == [] then 0
    else if EndIn(rounds[..|rounds| - 1]).Some? then Lived(rounds[..|rounds| - 1])
    else |rounds|
  }

  /** The pump goes on past the k-th round. */
  predicate GoesOn(rounds: seq<Round>, k: nat)
    requires k < |rounds|
  {
    Passes(rounds[k], Pending(rounds[..k]))
  }

  /** The k-th round ends the pump with a failure that happened in it. */
  predicate EndsAt(rounds: seq<Round>, k: nat, f: Failure)
    requires k < |rounds|
  {
    !GoesOn(rounds, k) && Happened(rounds[k], Seen(rounds[k], Pending(rounds[..k])), f)
  }

  /** The pump ends in the first round that does not let it go on, with a failure that happened there. */
  lemma {:induction false} EndsInFirstFailure(rounds: seq<Round>) returns (at: nat)
    ensures at <= |rounds| && forall k | 0 <= k < at :: GoesOn(rounds, k)
    ensures if EndIn(rounds).None? then at == |rounds| else at < |rounds| && EndsAt(rounds, at, EndIn(rounds).value)
    ensures Lived(rounds) == if at < |rounds| then at + 1 else |rounds|
  {
    at := 0;
    if rounds != [] {
      var n := |rounds| - 1;
      var before := rounds[..n];
      at := EndsInFirstFailure(before);
      forall k | 0 <= k < n
        ensures before[..k] == rounds[..k] && GoesOn(before, k) == GoesOn(rounds, k)
      {
        assert before[..k] == rounds[..k];
      }
      if EndIn(before).None? {
        EndOfIsReal(rounds[n], Pending(before));
        at := if EndIn(rounds).None? then n + 1 else n;
      }
    }
  }

  lemma SendingIsFair(pinging: bool, r: Round, trace: seq<Event>, tick: bool, frame: Frame)
    requires Running(pinging, trace, tick, []) && (r.Ticks() ==> pinging)
    ensures Fair(pinging, trace + Sending(r, tick, frame))
    ensures (tick ==> r.pingOk) ==> Running(pinging, trace + Sending(r, tick, frame), r.ticksLate, [])
  {
    var t := trace + [Took(frame)];
    Takes(pinging, trace, tick, frame);
    if tick {
      Pings(pinging, t, [frame]);
      t := t + [PingBegan];
    }
    if tick && !r.pingOk {
      assert t == trace + Sending(r, tick, frame);
      RunningIsFair(pinging, t, false, [frame]);
    } else {
      if r.ticksLate {
        Fires(pinging, t, false, [frame]);
        t := t + [TickFired];
      }
      Begins(pinging, t, r.ticksLate, frame);
      assert t + [WriteBegan(frame)] == trace + Sending(r, tick, frame);
      RunningIsFair(pinging, t + [WriteBegan(frame)], r.ticksLate, []);
    }
  }

  lemma EarlyIsFair(pinging: bool, r: Round, trace: seq<Event>, tick: bool)
    requires Running(pinging, trace, tick, []) && (r.Ticks() ==> pinging)
    ensures Running(pinging, trace + Early(r, tick), tick || r.ticksEarly, [])
  {
    if r.ticksEarly && !tick {
      Fires(pinging, trace, tick, []);
    } else {
      assert trace + [] == trace;
    }
  }

  lemma ActedIsFair(pinging: bool, r: Round, trace: seq<Event>, tick: bool)
    requires Running(pinging, trace, tick, []) && (r.Ticks() ==> pinging) && !r.poll.PollFailed?
    ensures Fair(pinging, trace + Acted(r, tick))
    ensures (FrameOf(r).Some? && tick ==> r.pingOk)
        ==> Running(pinging, trace + Acted(r, tick),
                    if FrameOf(r).Some? then r.ticksLate else !r.wait.Ticked? && tick, [])
  {
    if FrameOf(r).Some? {
      SendingIsFair(pinging, r, trace, tick, FrameOf(r).value);
    } else if r.wait.Ticked? {
      WaitedTickIsFair(pinging, trace, tick);
      assert trace + (if tick then [] else [TickFired]) + [PingBegan] == trace + Acted(r, tick);
    } else {
      RunningIsFair(pinging, trace, tick, []);
      assert trace + [] == trace;
    }
  }

  lemma SeenInTwo(trace: seq<Event>, r: Round, tick: bool)
    requires !r.ctxDone && !r.poll.PollFailed?
    ensures trace + Early(r, tick) + Acted(r, tick || r.ticksEarly) == trace + Seen(r, tick)
  {
  }

  lemma RoundIsFair(pinging: bool, r: Round, trace: seq<Event>, tick: bool)
    requires Running(pinging, trace, tick, []) && (r.Ticks() ==> pinging)
    ensures Fair(pinging, trace + Seen(r, tick))
    ensures Passes(r, tick) ==> Running(pinging, trace + Seen(r, tick), Left(r, tick), [])
  {
    if r.ctxDone || r.poll.PollFailed? {
      RunningIsFair(pinging, trace, tick, []);
      assert trace + [] == trace;
    } else {
      SeenInTwo(trace, r, tick);
      EarlyIsFair(pinging, r, trace, tick);
      ActedIsFair(pinging, r, trace + Early(r, tick), tick || r.ticksEarly);
    }
  }

  lemma WaitedTickIsFair(pinging: bool, trace: seq<Event>, tick: bool)
    requires Running(pinging, trace, tick, []) && pinging
    ensures var after := trace + (if tick then [] else [TickFired]) + [PingBegan];
            Running(pinging, after, false, []) && Fair(pinging, after)
  {
    if tick {
      assert trace + [] == trace;
    } else {
      Fires(pinging, trace, tick, []);
    }
    var t := trace + if tick then [] else [TickFired];
    Pings(pinging, t, []);
    RunningIsFair(pinging, t + [PingBegan], false, []);
  }

  /**
   Whatever the environment does, and wherever the pump ends: frames go out in order,
   and no ping waits for two writes. Without an interval the tick channel is nil and never
   fires, and then no ping is written.
   */
  lemma {:induction false} TraceIsFair(pinging: bool, rounds: seq<Round>)
    requires forall i | 0 <= i < |rounds| :: rounds[i].Ticks() ==> pinging
    ensures Fair(pinging, TraceOf(rounds))
    ensures EndIn(rounds).None? ==> Running(pinging, TraceOf(rounds), Pending(rounds), [])
  {
    if rounds != [] {
      var n := |rounds| - 1;
      TraceIsFair(pinging, rounds[..n]);
      if EndIn(rounds[..n]).None? {
        RoundIsFair(pinging, rounds[n], TraceOf(rounds[..n]), Pending(rounds[..n]));
        EndOfIsReal(rounds[n], Pending(rounds[..n]));
      }
    }
  }

  /** One round: a frame taken and written, a ping, both, or the end. */
  method OneRound(r: Round, tick0: bool) returns (seen: seq<Event>, tick: bool, end: Option<Failure>)
    ensures seen == Seen(r, tick0)
    ensures end == EndOf(r, tick0) && (end.None? ==> tick == Left(r, tick0))
  {
    seen, tick, end := [], tick0, None;
    if r.ctxDone {
      return seen, tick, Some(CtxEnded);
    }
    if r.poll.PollFailed? {
      return seen, tick, Some(r.poll.failure);
    }
    if r.ticksEarly && !tick {
      seen, tick := [TickFired], true;
    }
    var frame: Frame;
    if r.poll.Nothing? {
      match r.wait
      case WaitFailed(failure) =>
        return seen, tick, Some(failure);
      case Ticked =>
        seen := seen + (if tick then [] else [TickFired]) + [PingBegan];
        if !r.pingOk {
          end := Some(FailedWrite(r.ctxDoneAfterPing, PingFailed));
        }
        return seen, false, end;
      case MaybeReady =>
        return;
      case Arrived(f) =>
        frame := f;
    } else {
      frame := r.poll.frame;
    }
    var sent;
    sent, tick, end := SendFrame(r, tick, frame);
    seen := seen + sent;
  }

  /** A frame taken: the ping that is due, and the write. */
  method SendFrame(r: Round, tick0: bool, frame: Frame) returns (seen: seq<Event>, tick: bool, end: Option<Failure>)
    requires !r.ctxDone && FrameOf(r) == Some(frame)
    ensures seen == Sending(r, tick0, frame)
    ensures end == SendingEnd(r, tick0) && (end.None? ==> tick == r.ticksLate)
  {
    seen, tick, end := [Took(frame)], tick0, None;
    if tick {
      seen, tick := seen + [PingBegan], false;
      if !r.pingOk {
        return seen, tick, Some(FailedWrite(r.ctxDoneAfterPing, PingFailed));
      }
    }
    if r.ticksLate {
      seen, tick := seen + [TickFired], true;
    }
    seen := seen + [WriteBegan(frame)];
    if !r.writeOk {
      end := Some(FailedWrite(r.ctxDoneAfterWrite, WriteFailed));
    }
  }

  lemma OneMoreRound(rounds: seq<Round>, i: nat)
    requires i < |rounds| && EndIn(rounds[..i]).None?
    ensures TraceOf(rounds[..i + 1]) == TraceOf(rounds[..i]) + Seen(rounds[i], Pending(rounds[..i]))
    ensures Pending(rounds[..i + 1]) == Left(rounds[i], Pending(rounds[..i]))
    ensures EndIn(rounds[..i + 1]) == EndOf(rounds[i], Pending(rounds[..i]))
  {
    assert rounds[..i + 1][..i] == rounds[..i];
  }

  lemma {:induction false} EndedStays(rounds: seq<Round>, n: nat)
    requires n <= |rounds| && EndIn(rounds[..n]).Some?
    ensures EndIn(rounds) == EndIn(rounds[..n]) && TraceOf(rounds) == TraceOf(rounds[..n])
  {
    if n == |rounds| {
      assert rounds[..n] == rounds;
    } else {
      assert rounds[..|rounds| - 1][..n] == rounds[..n];
      EndedStays(rounds[..|rounds| - 1], n);
    }
  }

  // ---- What was seen is what the environment did ----

  /** The frames the environment hands over in a round: the one a poll has ready, or else the one a wait yields. */
  function HandedOver(r: Round): seq<Frame> {
    if r.ctxDone then []
    else
      match r.poll
      case Ready(frame) => [frame]
      case PollFailed(_) => []
      case Nothing =>
        match r.wait
        case Arrived(frame) => [frame]
        case _ => []
  }

  function AllHandedOver(rounds: seq<Round>): seq<Frame> {
    if rounds == [] then [] else AllHandedOver(rounds[..|rounds| - 1]) + HandedOver(rounds[|rounds| - 1])
  }

  lemma TakenOfTwo(a: seq<Event>, b: seq<Event>)
    ensures Taken(a + b) == Taken(a) + Taken(b)
    decreases |b|
  {
    if b == [] {
      assert a + b == a;
    } else {
      var n := |b| - 1;
      assert (a + b)[..|a| + n] == a + b[..n];
      TakenOfTwo(a, b[..n]);
    }
  }

  lemma SeenTakesWhatIsHanded(r: Round, tick: bool)
    ensures Taken(Seen(r, tick)) == HandedOver(r)
  {
    if !r.ctxDone && !r.poll.PollFailed? {
      var acted := Acted(r, tick || r.ticksEarly);
      TakenOfTwo(Early(r, tick), acted);
      if FrameOf(r).Some? {
        SendingTakes(r, tick || r.ticksEarly, FrameOf(r).value);
      } else if r.wait.Ticked? {
        TakenOfTwo(if tick || r.ticksEarly then [] else [TickFired], [PingBegan]);
      }
    }
  }

  lemma SendingTakes(r: Round, tick: bool, frame: Frame)
    ensures Taken(Sending(r, tick, frame)) == [frame]
  {
    var ping: seq<Event> := if tick then [PingBegan] else [];
    var write := if tick && !r.pingOk then [] else (if r.ticksLate then [TickFired] else []) + [WriteBegan(frame)];
    TakenOfTwo([Took(frame)] + ping, write);
    TakenOfTwo([Took(frame)], ping);
    TakenOfTwo(if r.ticksLate then [TickFired] else [], [WriteBegan(frame)]);
  }

  lemma {:induction false} LivedBefore(rounds: seq<Round>, k: nat)
    requires k < Lived(rounds)
    ensures EndIn(rounds[..k]).None?
  {
    var n := |rounds| - 1;
    assert k <= n && rounds[..n][..k] == rounds[..k];
    if EndIn(rounds[..n]).Some? {
      LivedBefore(rounds[..n], k);
    } else if EndIn(rounds[..k]).Some? {
      EndedStays(rounds[..n], k);
    }
  }

  lemma {:induction false} LivedEnds(rounds: seq<Round>)
    ensures TraceOf(rounds) == TraceOf(rounds[..Lived(rounds)])
  {
    if rounds != [] && EndIn(rounds[..|rounds| - 1]).Some? {
      LivedEnds(rounds[..|rounds| - 1]);
      assert rounds[..|rounds| - 1][..Lived(rounds)] == rounds[..Lived(rounds)];
    } else {
      assert rounds[..|rounds|] == rounds;
    }
  }

  lemma {:induction false} TakesUpTo(rounds: seq<Round>, k: nat)
    requires k <= Lived(rounds)
    ensures Taken(TraceOf(rounds[..k])) == AllHandedOver(rounds[..k])
  {
    if k > 0 {
      var tick := Pending(rounds[..k - 1]);
      TakesUpTo(rounds, k - 1);
      LivedBefore(rounds, k - 1);
      OneMoreRound(rounds, k - 1);
      TakenOfTwo(TraceOf(rounds[..k - 1]), Seen(rounds[k - 1], tick));
      SeenTakesWhatIsHanded(rounds[k - 1], tick);
      assert rounds[..k][..k - 1] == rounds[..k - 1];
    }
  }

  /** The frames taken are exactly those the environment handed over while the pump lived, in order. */
  lemma {:induction false} TakesWhatIsHanded(rounds: seq<Round>)
    ensures Taken(TraceOf(rounds)) == AllHandedOver(rounds[..Lived(rounds)])
  {
    LivedEnds(rounds);
    TakesUpTo(rounds, Lived(rounds));
  }

  /** A round that neither writes nor pings. */
  predicate IsIdle(r: Round) {
    HandedOver(r) == [] && !(r.poll.Nothing? && r.wait.Ticked?)
  }

  /** A tick fires in this round and is not looked for in it: late, behind a frame, or early in an idle one. */
  predicate LeavesTick(r: Round) {
    if HandedOver(r) != [] then r.ticksLate else IsIdle(r) && r.ticksEarly
  }

  /** A tick fired in the j-th round waits for the k-th: all between are idle. */
  ghost predicate Waits(rounds: seq<Round>, j: nat, k: nat)
    requires j < k <= |rounds|
  {
    LeavesTick(rounds[j]) && forall m | j < m < k :: IsIdle(rounds[m])
  }

  /** A round has a tick to answer: its own, or one that waits for it. */
  ghost predicate IsDue(rounds: seq<Round>, k: nat)
    requires k < |rounds|
  {
    || rounds[k].ticksEarly
    || (rounds[k].poll.Nothing? && rounds[k].wait.Ticked?)
    || exists j: nat | j < k :: Waits(rounds, j, k)
  }

  lemma LeftMeans(r: Round, tick: bool)
    requires Passes(r, tick)
    ensures Left(r, tick) == (LeavesTick(r) || (IsIdle(r) && tick))
  {
  }

  lemma {:induction false} PendingMeans(rounds: seq<Round>, k: nat)
    requires k <= |rounds| && EndIn(rounds[..k]).None?
    ensures Pending(rounds[..k]) <==> exists j: nat | j < k :: Waits(rounds, j, k)
  {
    if k > 0 {
      var r := rounds[k - 1];
      assert rounds[..k][..k - 1] == rounds[..k - 1];
      EndOfIsReal(r, Pending(rounds[..k - 1]));
      LeftMeans(r, Pending(rounds[..k - 1]));
      PendingMeans(rounds, k - 1);
      WaitsOneMore(rounds, k - 1, k);
    }
  }

  lemma WaitsOneMore(rounds: seq<Round>, k: nat, n: nat)
    requires k < |rounds| && n == k + 1
    ensures (exists j: nat | j < n :: Waits(rounds, j, n))
       <==> LeavesTick(rounds[k]) || (IsIdle(rounds[k]) && exists j: nat | j < k :: Waits(rounds, j, k))
  {
    if LeavesTick(rounds[k]) {
      assert Waits(rounds, k, n);
    }
    if IsIdle(rounds[k]) && exists j: nat | j < k :: Waits(rounds, j, k) {
      var j: nat :| j < k && Waits(rounds, j, k);
      assert Waits(rounds, j, n);
    }
    if !LeavesTick(rounds[k]) && exists j: nat | j < n :: Waits(rounds, j, n) {
      var j: nat :| j < n && Waits(rounds, j, n);
      assert Waits(rounds, j, k) && IsIdle(rounds[k]);
    }
  }

  /** What is seen of the k-th round. */
  function SeenOf(rounds: seq<Round>, k: nat): seq<Event>
    requires k < |rounds|
  {
    Seen(rounds[k], Pending(rounds[..k]))
  }

  /** At most one ping begins, before any write, and a write is of the frame handed over. */
  predicate IsInOrder(seen: seq<Event>, handed: seq<Frame>) {
    && (forall i, j | 0 <= i < j < |seen| && seen[j].PingBegan? :: !seen[i].PingBegan? && !seen[i].WriteBegan?)
    && (forall i | 0 <= i < |seen| && seen[i].WriteBegan? :: handed == [seen[i].frame])
  }

  /**
   A ping begins in exactly the rounds the pump sees that have a tick to answer and are not
   idle, once, and before the write; and the write is of the frame handed over.
   */
  lemma {:induction false} EveryTickIsAnswered(rounds: seq<Round>, k: nat)
    requires k < Lived(rounds)
    ensures TraceOf(rounds[..k + 1]) == TraceOf(rounds[..k]) + SeenOf(rounds, k)
    ensures PingBegan in SeenOf(rounds, k) <==> !rounds[k].ctxDone && !IsIdle(rounds[k]) && IsDue(rounds, k)
    ensures IsInOrder(SeenOf(rounds, k), HandedOver(rounds[k]))
  {
    LivedBefore(rounds, k);
    PendingMeans(rounds, k);
    OneMoreRound(rounds, k);
    PingsOfRound(rounds[k], Pending(rounds[..k]));
    SeenIsInOrder(rounds[k], Pending(rounds[..k]));
  }

  lemma SeenIsInOrder(r: Round, tick: bool)
    ensures IsInOrder(Seen(r, tick), HandedOver(r))
  {
    if !r.ctxDone && !r.poll.PollFailed? {
      var early, acted := Early(r, tick), Acted(r, tick || r.ticksEarly);
      ActedIsInOrder(r, tick || r.ticksEarly);
      assert early == [] || early == [TickFired];
    }
  }

  lemma ActedIsInOrder(r: Round, tick: bool)
    requires !r.ctxDone && !r.poll.PollFailed?
    ensures IsInOrder(Acted(r, tick), HandedOver(r))
  {
  }

  lemma PingsOfRound(r: Round, tick: bool)
    ensures PingBegan in Seen(r, tick)
       <==> && !r.ctxDone && !IsIdle(r)
            && (tick || r.ticksEarly || (r.poll.Nothing? && r.wait.Ticked?))
  {
    if !r.ctxDone && !r.poll.PollFailed? {
      var acted := Acted(r, tick || r.ticksEarly);
      assert PingBegan in Seen(r, tick) <==> PingBegan in acted;
      if FrameOf(r).Some? && (tick || r.ticksEarly) {
        assert acted[1] == PingBegan;
      } else if FrameOf(r).None? && r.wait.Ticked? {
        assert acted[|acted| - 1] == PingBegan;
      }
    }
  }

  method Pump(rounds: seq<Round>) returns (trace: seq<Event>, end: Option<Failure>)
    ensures trace == TraceOf(rounds) && end == EndIn(rounds)
    ensures Taken(trace) == AllHandedOver(rounds[..Lived(rounds)])
    ensures Fair(true, trace) && (end.None? ==> Begun(trace) == Taken(trace))
  {
    TakesWhatIsHanded(rounds);
    TraceIsFair(true, rounds);
    trace, end := [], None;
    var tick := false;
    for i := 0 to |rounds|
      invariant trace == TraceOf(rounds[..i]) && tick == Pending(rounds[..i]) && EndIn(rounds[..i]).None?
    {
      OneMoreRound(rounds, i);
      var seen;
      seen, tick, end := OneRound(rounds[i], tick);
      trace := trace + seen;
      if end.Some? {
        EndedStays(rounds, i + 1);
        return;
      }
    }
    assert rounds[..|rounds|] == rounds;
    end := None;
  }

  /** The pump over a channel of frames: its source's stop, and nothing else, is no error. */
  method PumpChan(rounds: seq<Round>) returns (trace: seq<Event>, end: Option<Failure>)
    ensures trace == TraceOf(rounds)
    ensures Taken(trace) == AllHandedOver(rounds[..Lived(rounds)])
    ensures end == if EndIn(rounds) == Some(Stopped) then None else EndIn(rounds)
  {
    trace, end := Pump(rounds);
    if end == Some(Stopped) {
      end := None;
    }
  }
}
