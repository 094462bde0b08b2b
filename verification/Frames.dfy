/**
 The framed byte stream of a viewer: a little-endian header before each payload,
 frames of many channels on one connection, and a credit frame for every read.
 */
module Frames {
  import opened Wrappers
  import opened Bytes

  const LIMIT: int := 0x1_0000_0000

  type U32 = x: int | 0 <= x < LIMIT

  const KIND_DATA: Byte := 0
  const KIND_CREDIT: Byte := 1
  const KIND_CLOSE: Byte := 2

  /** The `n` low bytes of `x`, the lowest first. */
  function Little(n: nat, x: nat): (b: seq<Byte>)
    ensures |b| == n
  {
    if n == 0 then [] else [x % 256] + Little(n - 1, x / 256)
  }

  /** Byte k counts the 256^k: the lowest comes first. */
  lemma {:induction false} LittleByte(n: nat, x: nat, k: nat)
    requires k < n
    ensures Little(n, x)[k] == x / Power256(k) % 256
  {
    if k > 0 {
      LittleByte(n - 1, x / 256, k - 1);
      DividedTwice(x, Power256(k - 1));
    }
  }

  lemma DividedTwice(x: nat, d: nat)
    requires d > 0
    ensures x / 256 / d == x / (256 * d)
  {
    var q, r := x / 256 / d, x / 256 % d;
    assert x / 256 == d * q + r;
    var low := x % 256;
    assert x == 256 * (d * q + r) + low == (256 * d) * q + (256 * r + low);
    assert 0 <= 256 * r + low < 256 * d;
    QuotientIs(x, 256 * d, q, 256 * r + low);
  }

  lemma QuotientIs(x: nat, d: nat, q: nat, r: nat)
    requires d > 0 && r < d && x == d * q + r
    ensures x / d == q
  {
    var q', r' := x / d, x % d;
    assert x == d * q' + r';
    var more := q' - q;
    assert d * more == r - r';
    assert (more >= 1 ==> d * more >= d) && (more <= -1 ==> d * more + d <= 0);
  }

  function FromLittle(b: seq<Byte>): nat {
    if b == [] then 0 else b[0] + 256 * FromLittle(b[1..])
  }

  function Power256(n: nat): (p: nat)
    ensures p > 0
  {
    if n == 0 then 1 else 256 * Power256(n - 1)
  }

  lemma {:induction false} LittleReadsBack(n: nat, x: nat)
    ensures FromLittle(Little(n, x)) == x <==> x < Power256(n)
  {
    if n > 0 {
      LittleReadsBack(n - 1, x / 256);
      FromLittleIsBelow(Little(n - 1, x / 256));
      assert Little(n, x)[1..] == Little(n - 1, x / 256);
    }
  }

  lemma {:induction false} FromLittleIsBelow(b: seq<Byte>)
    ensures FromLittle(b) < Power256(|b|)
  {
    if b != [] {
      FromLittleIsBelow(b[1..]);
    }
  }

  lemma {:induction false} LittleIsAll(b: seq<Byte>)
    ensures Little(|b|, FromLittle(b)) == b
  {
    if b != [] {
      LittleIsAll(b[1..]);
    }
  }

  function Le32(x: U32): (b: seq<Byte>)
    ensures |b| == 4
  {
    Little(4, x)
  }

  function FromLe32(b: seq<Byte>): U32
    requires |b| == 4
  {
    FromLittleIsBelow(b);
    FourBytes();
    FromLittle(b)
  }

  lemma FourBytes()
    ensures Power256(4) == LIMIT
  {
    assert Power256(3) == 256 * Power256(2) == 256 * (256 * Power256(1)) == 256 * (256 * 256);
  }

  lemma Le32Inverse(x: U32, b: seq<Byte>)
    requires |b| == 4
    ensures FromLe32(Le32(x)) == x && Le32(FromLe32(b)) == b
  {
    LittleReadsBack(4, x);
    LittleIsAll(b);
    FourBytes();
  }

  datatype Frame = Frame(channel: U32, kind: Byte, payload: seq<Byte>)

  /** What comes before a payload; the length field keeps the low 32 bits of the length. */
  function Header(f: Frame): (h: seq<Byte>)
    ensures |h| == 9
  {
    Le32(f.channel) + [f.kind] + Le32(|f.payload| % LIMIT)
  }

  function Encode(f: Frame): (b: seq<Byte>)
    ensures |b| == 9 + |f.payload|
  {
    Header(f) + f.payload
  }

  datatype Head = Head(channel: U32, kind: Byte, length: U32)

  function ReadHeader(h: seq<Byte>): Head
    requires |h| == 9
  {
    Head(FromLe32(h[..4]), h[4], FromLe32(h[5..]))
  }

  lemma HeaderReadsBack(f: Frame)
    ensures ReadHeader(Header(f)) == Head(f.channel, f.kind, |f.payload| % LIMIT)
  {
    var h, n := Header(f), |f.payload| % LIMIT;
    assert h[..4] == Le32(f.channel) && h[5..] == Le32(n);
    Le32Inverse(f.channel, h[..4]);
    Le32Inverse(n, h[5..]);
  }

  lemma HeaderIsAll(h: seq<Byte>, payload: seq<Byte>)
    requires |h| == 9 && |payload| == ReadHeader(h).length
    ensures Header(Frame(ReadHeader(h).channel, ReadHeader(h).kind, payload)) == h
  {
    Le32Inverse(0, h[..4]);
    Le32Inverse(0, h[5..]);
    assert h == h[..4] + [h[4]] + h[5..];
  }

  datatype Got = Got(frame: Frame, rest: seq<Byte>)

  /** One frame off the front of a stream that ends where `b` does, or nothing when it ends inside the frame. */
  function ReadFrame(b: seq<Byte>): (r: Option<Got>)
    ensures r.Some? ==> |r.value.rest| < |b|
  {
    if |b| < 9 then None
    else
      var head := ReadHeader(b[..9]);
      if |b| < 9 + head.length then None
      else Some(Got(Frame(head.channel, head.kind, b[9..][..head.length]), b[9..][head.length..]))
  }

  /** A frame reads back, whatever follows it, exactly when its length fits the field. */
  lemma {:induction false} ReadsBack(f: Frame, rest: seq<Byte>)
    ensures ReadFrame(Encode(f) + rest) == Some(Got(f, rest)) <==> |f.payload| < LIMIT
  {
    if |f.payload| < LIMIT {
      ShortReadsBack(f, rest);
    }
  }

  lemma ShortReadsBack(f: Frame, rest: seq<Byte>)
    requires |f.payload| < LIMIT
    ensures ReadFrame(Encode(f) + rest) == Some(Got(f, rest))
  {
    var b, tail := Encode(f) + rest, f.payload + rest;
    HeaderReadsBack(f);
    Associative(Header(f), f.payload, rest);
    assert b[..9] == Header(f) && b[9..] == tail;
    assert tail[..|f.payload|] == f.payload && tail[|f.payload|..] == rest;
  }

  lemma ReadWasEncoded(b: seq<Byte>)
    requires ReadFrame(b).Some?
    ensures var Got(f, rest) := ReadFrame(b).value; |f.payload| < LIMIT && b == Encode(f) + rest
  {
    var h, tail, n := b[..9], b[9..], ReadHeader(b[..9]).length;
    HeaderIsAll(h, tail[..n]);
    Associative(h, tail[..n], tail[n..]);
    assert tail[..n] + tail[n..] == tail && h + tail == b;
  }

  function Encodings(fs: seq<Frame>): (r: seq<seq<Byte>>)
    ensures |r| == |fs| && forall i | 0 <= i < |fs| :: r[i] == Encode(fs[i])
  {
    if fs == [] then [] else Encodings(fs[..|fs| - 1]) + [Encode(fs[|fs| - 1])]
  }

  function EncodeAll(fs: seq<Frame>): seq<Byte> {
    Concat(Encodings(fs))
  }

  /** Every whole frame of a stream, up to where it ends. */
  function Decode(b: seq<Byte>): seq<Frame>
    decreases |b|
  {
    match ReadFrame(b)
    case None => []
    case Some(Got(f, rest)) => [f] + Decode(rest)
  }

  predicate AllFit(fs: seq<Frame>) {
    forall i | 0 <= i < |fs| :: |fs[i].payload| < LIMIT
  }

  lemma EncodeFirst(fs: seq<Frame>)
    requires fs != []
    ensures EncodeAll(fs) == Encode(fs[0]) + EncodeAll(fs[1..])
  {
    assert Encodings(fs)[1..] == Encodings(fs[1..]);
    ConcatFirst(Encodings(fs));
  }

  lemma EncodeJoin(f: Frame, fs: seq<Frame>, cut: seq<Byte>)
    ensures EncodeAll([f] + fs) + cut == Encode(f) + (EncodeAll(fs) + cut)
  {
    EncodeFirst([f] + fs);
    assert ([f] + fs)[1..] == fs;
    Associative(Encode(f), EncodeAll(fs), cut);
  }

  lemma EncodeLast(fs: seq<Frame>, f: Frame)
    ensures EncodeAll(fs + [f]) == EncodeAll(fs) + Encode(f)
  {
    assert (fs + [f])[..|fs|] == fs;
    assert Encodings(fs + [f])[..|fs|] == Encodings(fs);
  }

  /** Frames read back in order, and a stream that ends inside a frame loses that frame alone. */
  lemma {:induction false} FramesReadBack(fs: seq<Frame>, cut: seq<Byte>)
    requires AllFit(fs) && ReadFrame(cut) == None
    ensures Decode(EncodeAll(fs) + cut) == fs
  {
    if fs == [] {
      assert EncodeAll(fs) + cut == cut;
    } else {
      assert [fs[0]] + fs[1..] == fs;
      EncodeJoin(fs[0], fs[1..], cut);
      DecodeFirst(fs[0], EncodeAll(fs[1..]) + cut);
      FramesReadBack(fs[1..], cut);
    }
  }

  lemma DecodeFirst(f: Frame, rest: seq<Byte>)
    requires |f.payload| < LIMIT
    ensures Decode(Encode(f) + rest) == [f] + Decode(rest)
  {
    ReadsBack(f, rest);
  }

  /** No proper beginning of a frame reads as one. */
  lemma {:induction false} CutFrameIsNone(f: Frame, n: nat)
    requires |f.payload| < LIMIT && n < |Encode(f)|
    ensures ReadFrame(Encode(f)[..n]) == None
  {
    if n >= 9 {
      HeaderReadsBack(f);
      assert Encode(f)[..n][..9] == Header(f);
    }
  }

  /** What a stream decodes to is the only way to read it as frames. */
  lemma {:induction false} DecodedWasEncoded(b: seq<Byte>) returns (cut: seq<Byte>)
    ensures b == EncodeAll(Decode(b)) + cut && ReadFrame(cut) == None && AllFit(Decode(b))
    decreases |b|
  {
    match ReadFrame(b) {
      case None =>
        cut := b;
        assert b == EncodeAll([]) + cut;
      case Some(Got(f, rest)) =>
        cut := DecodedWasEncoded(rest);
        DecodedJoin(b, f, rest, cut);
    }
  }

  lemma DecodeOne(b: seq<Byte>, f: Frame, rest: seq<Byte>)
    requires ReadFrame(b) == Some(Got(f, rest))
    ensures Decode(b) == [f] + Decode(rest)
  {
  }

  lemma DecodedJoin(b: seq<Byte>, f: Frame, rest: seq<Byte>, cut: seq<Byte>)
    requires ReadFrame(b) == Some(Got(f, rest)) && rest == EncodeAll(Decode(rest)) + cut
    ensures b == EncodeAll(Decode(b)) + cut
    ensures AllFit(Decode(rest)) ==> AllFit(Decode(b))
  {
    ReadWasEncoded(b);
    DecodeOne(b, f, rest);
    EncodeJoin(f, Decode(rest), cut);
  }

  // ---- Taking one channel's data off the connection ----

  /** The frames before the first that closes the channel. */
  function BeforeClose(channel: U32, fs: seq<Frame>): seq<Frame> {
    if fs == [] || (fs[0].channel == channel && fs[0].kind == KIND_CLOSE) then []
    else [fs[0]] + BeforeClose(channel, fs[1..])
  }

  /** The payloads of one kind on one channel. */
  function Payloads(channel: U32, kind: Byte, fs: seq<Frame>): seq<seq<Byte>> {
    if fs == [] then []
    else
      var f := fs[|fs| - 1];
      Payloads(channel, kind, fs[..|fs| - 1]) + if f.channel == channel && f.kind == kind then [f.payload] else []
  }

  lemma {:induction false} PayloadsFit(channel: U32, kind: Byte, fs: seq<Frame>)
    requires AllFit(fs)
    ensures forall i | 0 <= i < |Payloads(channel, kind, fs)| :: |Payloads(channel, kind, fs)[i]| < LIMIT
  {
    if fs != [] {
      PayloadsFit(channel, kind, fs[..|fs| - 1]);
    }
  }

  /** Sends on the payloads of the stream's own channel, until it closes or the connection ends. */
  method Pump(channel: U32, connection: seq<Byte>) returns (data: seq<seq<Byte>>)
    ensures data == Payloads(channel, KIND_DATA, BeforeClose(channel, Decode(connection)))
  {
    data := [];
    var br := connection;
    ghost var seen: seq<Frame> := [];
    while true
      invariant data == Payloads(channel, KIND_DATA, seen)
      invariant BeforeClose(channel, Decode(connection)) == seen + BeforeClose(channel, Decode(br))
      decreases |br|
    {
      var got := ReadFrame(br);
      if got.None? {
        assert seen + [] == seen;
        return;
      }
      var Got(f, rest) := got.value;
      PumpStep(channel, br, f, rest, seen);
      if f.channel == channel && f.kind == KIND_DATA {
        data := data + [f.payload];
      }
      if f.channel == channel && f.kind == KIND_CLOSE {
        return;
      }
      seen := seen + [f];
      br := rest;
    }
  }

  lemma PumpStep(channel: U32, br: seq<Byte>, f: Frame, rest: seq<Byte>, seen: seq<Frame>)
    requires ReadFrame(br) == Some(Got(f, rest))
    ensures seen + BeforeClose(channel, Decode(br))
         == if f.channel == channel && f.kind == KIND_CLOSE then seen
            else seen + [f] + BeforeClose(channel, Decode(rest))
    ensures Payloads(channel, KIND_DATA, seen + [f])
         == Payloads(channel, KIND_DATA, seen)
            + if f.channel == channel && f.kind == KIND_DATA then [f.payload] else []
  {
    DecodeOne(br, f, rest);
    SeenOneMore(channel, seen, f, Decode(rest));
    assert (seen + [f])[..|seen|] == seen;
  }

  lemma SeenOneMore(channel: U32, seen: seq<Frame>, f: Frame, fs: seq<Frame>)
    ensures seen + BeforeClose(channel, [f] + fs)
         == if f.channel == channel && f.kind == KIND_CLOSE then seen else seen + [f] + BeforeClose(channel, fs)
  {
    assert ([f] + fs)[1..] == fs;
  }

  // ---- Reading, and giving credit ----

  /**
   One stream: what is left of the last payload, the payloads waiting, the bytes put on
   the connection, and whether this end has closed it, after which it takes no more.
   */
  datatype Stream = Stream(channel: U32, rest: seq<Byte>, inbox: seq<seq<Byte>>, sent: seq<Byte>, closed: bool)
  {
    predicate Fits() {
      |rest| < LIMIT && forall i | 0 <= i < |inbox| :: |inbox[i]| < LIMIT
    }

    /** Everything not yet handed out. */
    function Pending(): seq<Byte> {
      rest + Concat(inbox)
    }

    predicate Exhausted() {
      rest == [] && inbox == []
    }

    function Next(): seq<Byte> {
      if rest == [] && inbox != [] then inbox[0] else rest
    }

    /** The stream when `n` bytes of what is next are gone. */
    function Without(n: nat): Stream
      requires n <= |Next()|
    {
      this.(rest := Next()[n..], inbox := if rest == [] && inbox != [] then inbox[1..] else inbox)
    }
  }

  datatype Op = Read(size: nat) | Write(p: seq<Byte>) | Close

  function Least(a: nat, b: nat): nat {
    if a <= b then a else b
  }

  /** What a read into a buffer of this size hands out. */
  function HandedOut(s: Stream, op: Op): seq<Byte> {
    if op.Read? then s.Next()[..Least(op.size, |s.Next()|)] else []
  }

  /** The frame an operation sends, if it sends one: after a close the error of its write is dropped. */
  function FrameOf(s: Stream, op: Op): Option<Frame>
    requires s.Fits()
  {
    if s.closed then None
    else
      match op
      case Read(_) =>
        if s.Exhausted() then None else Some(Frame(s.channel, KIND_CREDIT, Le32(|HandedOut(s, op)|)))
      case Write(p) => Some(Frame(s.channel, KIND_DATA, p))
      case Close => Some(Frame(s.channel, KIND_CLOSE, []))
  }

  function Sent(f: Option<Frame>): seq<Byte> {
    if f.Some? then Encode(f.value) else []
  }

  function Do(s: Stream, op: Op): (t: Stream)
    requires s.Fits()
    ensures t.Fits() && t.channel == s.channel
  {
    (if op.Read? then s.Without(|HandedOut(s, op)|) else s).(
      sent := s.sent + Sent(FrameOf(s, op)), closed := s.closed || op.Close?)
  }

  /**
   What operations put on the wire, byte by byte: the channel, the kind, the length and the
   payload. A read's payload is the credit for the bytes it hands out.
   */
  lemma {:induction false} OnTheWire(s: Stream, op: Op)
    requires s.Fits() && !s.closed && (op.Write? ==> |op.p| < LIMIT)
    ensures var bytes := Do(s, op).sent;
            match op
            case Write(p) => bytes == s.sent + (Little(4, s.channel) + [0] + Little(4, |p|) + p)
            case Close => bytes == s.sent + (Little(4, s.channel) + [2] + Little(4, 0) + [])
            case Read(_) =>
              if s.rest == [] && s.inbox == [] then bytes == s.sent
              else bytes == s.sent + (Little(4, s.channel) + [1] + Little(4, 4) + Little(4, |HandedOut(s, op)|))
  {
    if FrameOf(s, op).None? {
      assert s.sent + [] == s.sent;
    } else {
      assert |FrameOf(s, op).value.payload| % LIMIT == |FrameOf(s, op).value.payload|;
    }
  }

  /** A read hands out the beginning of what is next: what the buffer takes, or all there is. */
  lemma {:induction false} ReadsFill(s: Stream, size: nat)
    ensures var out := HandedOut(s, Read(size));
            var next := if s.rest != [] then s.rest else if s.inbox != [] then s.inbox[0] else [];
            out <= next && |out| <= size && (|out| == size || out == next)
  {
  }

  class HcStream {
    const channel: U32
    var rest: seq<Byte>
    var inbox: seq<seq<Byte>>
    var sent: seq<Byte>
    var closed: bool

    ghost function State(): Stream
      reads this
    {
      Stream(channel, rest, inbox, sent, closed)
    }

    constructor (channel: U32, data: seq<seq<Byte>>)
      ensures State() == Stream(channel, [], data, [], false)
    {
      this.channel := channel;
      rest, inbox, sent, closed := [], data, [], false;
    }

    method SendFrame(f: Frame) returns (ok: bool)
      modifies this`sent
      ensures ok == !closed
      ensures State() == if ok then old(State()).(sent := old(sent) + Encode(f)) else old(State())
    {
      if closed {
        return false;
      }
      sent := sent + Encode(f);
      ok := true;
    }

    method ReadInto(size: nat) returns (out: seq<Byte>, eof: bool)
      requires State().Fits()
      modifies this
      ensures State() == Do(old(State()), Read(size))
      ensures out == HandedOut(old(State()), Read(size))
      ensures eof == old(State()).Exhausted()
    {
      if rest == [] {
        if inbox == [] {
          return [], true;
        }
        rest, inbox := inbox[0], inbox[1..];
      }
      var n := if size <= |rest| then size else |rest|;
      out, eof := rest[..n], false;
      rest := rest[n..];
      var _ := SendFrame(Frame(channel, KIND_CREDIT, Le32(n)));
    }

    method WriteOut(p: seq<Byte>) returns (ok: bool)
      requires State().Fits()
      modifies this
      ensures State() == Do(old(State()), Write(p)) && ok == !closed
    {
      ok := SendFrame(Frame(channel, KIND_DATA, p));
    }

    method CloseStream()
      requires State().Fits()
      modifies this
      ensures State() == Do(old(State()), Close)
    {
      var _ := SendFrame(Frame(channel, KIND_CLOSE, []));
      closed := true;
    }
  }

  // ---- Over a whole run ----

  function Play(s: Stream, ops: seq<Op>): (t: Stream)
    requires s.Fits()
    ensures t.Fits() && t.channel == s.channel
  {
    if ops == [] then s else Do(Play(s, ops[..|ops| - 1]), ops[|ops| - 1])
  }

  function HandedBy(s: Stream, ops: seq<Op>): seq<Byte>
    requires s.Fits()
  {
    if ops == [] then []
    else
      var n := |ops| - 1;
      HandedBy(s, ops[..n]) + HandedOut(Play(s, ops[..n]), ops[n])
  }

  function FramesBy(s: Stream, ops: seq<Op>): seq<Frame>
    requires s.Fits()
  {
    if ops == [] then []
    else
      var n := |ops| - 1;
      var f := FrameOf(Play(s, ops[..n]), ops[n]);
      FramesBy(s, ops[..n]) + if f.Some? then [f.value] else []
  }

  /** The credit given by credit payloads. */
  function Credit(payloads: seq<seq<Byte>>): nat {
    if payloads == [] then 0
    else
      var b := payloads[|payloads| - 1];
      Credit(payloads[..|payloads| - 1]) + if |b| == 4 then FromLe32(b) else 0
  }

  function Written(ops: seq<Op>): seq<seq<Byte>> {
    if ops == [] then []
    else
      var op := ops[|ops| - 1];
      Written(ops[..|ops| - 1]) + if op.Write? then [op.p] else []
  }

  /** The operations before the first close. */
  function WhileOpen(ops: seq<Op>): seq<Op> {
    if ops == [] then []
    else
      var n := |ops| - 1;
      if WhileOpen(ops[..n]) == ops[..n] && !ops[n].Close? then ops else WhileOpen(ops[..n])
  }

  lemma {:induction false} WhileOpenEndsAtClose(ops: seq<Op>)
    ensures var n := |WhileOpen(ops)|;
            && n <= |ops| && WhileOpen(ops) == ops[..n]
            && (n < |ops| ==> ops[n].Close?) && forall i | 0 <= i < n :: !ops[i].Close?
  {
    if ops != [] {
      WhileOpenEndsAtClose(ops[..|ops| - 1]);
    }
  }

  predicate WritesFit(ops: seq<Op>) {
    forall i | 0 <= i < |ops| && ops[i].Write? :: |ops[i].p| < LIMIT
  }

  /** A step hands out the next bytes of what is pending, and loses none. */
  lemma NothingIsLost(s: Stream, op: Op)
    requires s.Fits()
    ensures HandedOut(s, op) + Do(s, op).Pending() == s.Pending()
  {
    if op.Read? {
      TakingKeeps(s, |HandedOut(s, op)|);
    }
  }

  lemma TakingKeeps(s: Stream, n: nat)
    requires n <= |s.Next()|
    ensures s.Next()[..n] + s.Without(n).Pending() == s.Pending()
  {
    var next, inbox := s.Next(), s.Without(n).inbox;
    if s.rest == [] && s.inbox != [] {
      ConcatFirst(s.inbox);
    }
    assert s.Pending() == next + Concat(inbox);
    assert next[..n] + (next[n..] + Concat(inbox)) == next[..n] + next[n..] + Concat(inbox);
    assert next[..n] + next[n..] == next;
  }

  lemma {:induction false} HandedIsPrefix(s: Stream, ops: seq<Op>)
    requires s.Fits()
    ensures HandedBy(s, ops) + Play(s, ops).Pending() == s.Pending()
  {
    if ops != [] {
      var n := |ops| - 1;
      HandedIsPrefix(s, ops[..n]);
      NothingIsLost(Play(s, ops[..n]), ops[n]);
    }
  }

  lemma {:induction false} SentIsEncoded(s: Stream, ops: seq<Op>)
    requires s.Fits() && WritesFit(ops)
    ensures Play(s, ops).sent == s.sent + EncodeAll(FramesBy(s, ops)) && AllFit(FramesBy(s, ops))
  {
    if ops != [] {
      var n := |ops| - 1;
      SentIsEncoded(s, ops[..n]);
      var f := FrameOf(Play(s, ops[..n]), ops[n]);
      DoSends(Play(s, ops[..n]), ops[n]);
      SentJoin(s.sent, FramesBy(s, ops[..n]), f);
    }
  }

  lemma DoSends(s: Stream, op: Op)
    requires s.Fits() && (op.Write? ==> |op.p| < LIMIT)
    ensures Do(s, op).sent == s.sent + Sent(FrameOf(s, op))
    ensures FrameOf(s, op).Some? ==> |FrameOf(s, op).value.payload| < LIMIT
  {
  }

  lemma SentJoin(sent: seq<Byte>, before: seq<Frame>, f: Option<Frame>)
    ensures sent + EncodeAll(before) + Sent(f)
         == sent + EncodeAll(before + if f.Some? then [f.value] else [])
  {
    if f.Some? {
      EncodeLast(before, f.value);
      Associative(sent, EncodeAll(before), Encode(f.value));
    } else {
      assert before + [] == before;
    }
  }

  predicate NoClose(ops: seq<Op>) {
    forall i | 0 <= i < |ops| :: !ops[i].Close?
  }

  lemma {:induction false} StaysOpen(s: Stream, ops: seq<Op>)
    requires s.Fits() && !s.closed && NoClose(ops)
    ensures !Play(s, ops).closed
  {
    if ops != [] {
      StaysOpen(s, ops[..|ops| - 1]);
    }
  }

  lemma {:induction false} FramesSayWhatWasDone(s: Stream, ops: seq<Op>)
    requires s.Fits() && !s.closed && NoClose(ops)
    ensures Credit(Payloads(s.channel, KIND_CREDIT, FramesBy(s, ops))) == |HandedBy(s, ops)|
    ensures Payloads(s.channel, KIND_DATA, FramesBy(s, ops)) == Written(ops)
  {
    if ops != [] {
      var n := |ops| - 1;
      FramesSayWhatWasDone(s, ops[..n]);
      StaysOpen(s, ops[..n]);
      StepSaysWhatWasDone(Play(s, ops[..n]), ops[n], FramesBy(s, ops[..n]));
      var f := FrameOf(Play(s, ops[..n]), ops[n]);
      assert FramesBy(s, ops) == FramesBy(s, ops[..n]) + if f.Some? then [f.value] else [];
      assert HandedBy(s, ops) == HandedBy(s, ops[..n]) + HandedOut(Play(s, ops[..n]), ops[n]);
    }
  }

  /** The first close is the last thing sent. */
  lemma {:induction false} SilentOnceClosed(s: Stream, ops: seq<Op>, n: nat)
    requires s.Fits() && !s.closed && n < |ops| && ops[n].Close? && NoClose(ops[..n])
    ensures FramesBy(s, ops) == FramesBy(s, ops[..n]) + [Frame(s.channel, KIND_CLOSE, [])]
    ensures Play(s, ops).closed
  {
    var m := |ops| - 1;
    if n == m {
      StaysOpen(s, ops[..n]);
    } else {
      assert ops[..m][..n] == ops[..n];
      SilentOnceClosed(s, ops[..m], n);
      var before := FramesBy(s, ops[..m]);
      assert FrameOf(Play(s, ops[..m]), ops[m]) == None && before + [] == before;
      assert FramesBy(s, ops) == before;
    }
  }

  lemma CloseSaysNothing(channel: U32, fs: seq<Frame>)
    ensures var after := fs + [Frame(channel, KIND_CLOSE, [])];
            && Payloads(channel, KIND_CREDIT, after) == Payloads(channel, KIND_CREDIT, fs)
            && Payloads(channel, KIND_DATA, after) == Payloads(channel, KIND_DATA, fs)
  {
    assert (fs + [Frame(channel, KIND_CLOSE, [])])[..|fs|] == fs;
  }

  lemma FramesSayWhatWasOpen(s: Stream, ops: seq<Op>)
    requires s.Fits() && !s.closed
    ensures Credit(Payloads(s.channel, KIND_CREDIT, FramesBy(s, ops))) == |HandedBy(s, WhileOpen(ops))|
    ensures Payloads(s.channel, KIND_DATA, FramesBy(s, ops)) == Written(WhileOpen(ops))
  {
    WhileOpenEndsAtClose(ops);
    var n := |WhileOpen(ops)|;
    FramesSayWhatWasDone(s, ops[..n]);
    if n < |ops| {
      SilentOnceClosed(s, ops, n);
      CloseSaysNothing(s.channel, FramesBy(s, ops[..n]));
    } else {
      assert ops[..n] == ops;
    }
  }

  lemma StepSaysWhatWasDone(s: Stream, op: Op, before: seq<Frame>)
    requires s.Fits() && !s.closed
    ensures var f := FrameOf(s, op);
            var after := before + if f.Some? then [f.value] else [];
            && Credit(Payloads(s.channel, KIND_CREDIT, after))
               == Credit(Payloads(s.channel, KIND_CREDIT, before)) + |HandedOut(s, op)|
            && Payloads(s.channel, KIND_DATA, after)
               == Payloads(s.channel, KIND_DATA, before) + if op.Write? then [op.p] else []
  {
    var f := FrameOf(s, op);
    if f.None? {
      assert before + [] == before;
    } else {
      assert (before + [f.value])[..|before|] == before;
      var credits := Payloads(s.channel, KIND_CREDIT, before);
      assert credits + [] == credits;
      if op.Read? {
        Le32Inverse(|HandedOut(s, op)|, f.value.payload);
        assert (credits + [f.value.payload])[..|credits|] == credits;
      }
    }
  }

  /**
   Whatever the reads, writes and closes, the peer that reads what was sent counts
   exactly as much credit as bytes were handed out before the first close, and finds
   the writes before it in order. A read after it still hands out what waits, uncredited.
   */
  lemma {:induction false} CreditIsExact(s: Stream, ops: seq<Op>)
    requires s.Fits() && WritesFit(ops) && s.sent == [] && !s.closed
    ensures var seen := Decode(Play(s, ops).sent);
            && Credit(Payloads(s.channel, KIND_CREDIT, seen)) == |HandedBy(s, WhileOpen(ops))|
            && Payloads(s.channel, KIND_DATA, seen) == Written(WhileOpen(ops))
  {
    SentIsEncoded(s, ops);
    SentReadsBack(FramesBy(s, ops));
    FramesSayWhatWasOpen(s, ops);
  }

  lemma SentReadsBack(fs: seq<Frame>)
    requires AllFit(fs)
    ensures Decode([] + EncodeAll(fs)) == fs
  {
    FramesReadBack(fs, []);
    assert [] + EncodeAll(fs) == EncodeAll(fs) + [];
  }

  predicate AreReads(ops: seq<Op>) {
    forall i | 0 <= i < |ops| :: ops[i].Read? && ops[i].size > 0
  }

  /** Enough reads of any sizes above zero hand out everything. */
  lemma {:induction false} ReadsDrain(s: Stream, ops: seq<Op>)
    requires s.Fits() && AreReads(ops)
    ensures var t := Play(s, ops);
            t.Exhausted() || |t.Pending()| + |t.inbox| + |ops| <= |s.Pending()| + |s.inbox|
    ensures |ops| > |s.Pending()| + |s.inbox| ==> HandedBy(s, ops) == s.Pending()
  {
    if ops != [] {
      var n := |ops| - 1;
      ReadsDrain(s, ops[..n]);
      ReadDrains(Play(s, ops[..n]), ops[n]);
    }
    HandedIsPrefix(s, ops);
    NothingPending(Play(s, ops));
  }

  lemma NothingPending(s: Stream)
    ensures s.Exhausted() ==> s.Pending() == []
  {
  }

  lemma ReadDrains(s: Stream, op: Op)
    requires s.Fits() && op.Read? && op.size > 0
    ensures var t := Do(s, op);
            if s.Exhausted() then t.Exhausted() else |t.Pending()| + |t.inbox| < |s.Pending()| + |s.inbox|
  {
    NothingIsLost(s, op);
    assert |HandedOut(s, op) + Do(s, op).Pending()| == |HandedOut(s, op)| + |Do(s, op).Pending()|;
  }

  /**
   From one end to the other: what the reads of a channel hand out is a prefix of the
   data its peer framed for it before closing, among the frames of any other channels.
   */
  lemma {:induction false} HandedIsWhatWasFramed(channel: U32, fs: seq<Frame>, cut: seq<Byte>,
                                                 data: seq<seq<Byte>>, ops: seq<Op>)
    requires AllFit(fs) && ReadFrame(cut) == None
    requires data == Payloads(channel, KIND_DATA, BeforeClose(channel, Decode(EncodeAll(fs) + cut)))
    ensures var s := Stream(channel, [], data, [], false);
            && s.Fits()
            && HandedBy(s, ops) <= Concat(Payloads(channel, KIND_DATA, BeforeClose(channel, fs)))
  {
    FramesReadBack(fs, cut);
    BeforeCloseFits(channel, fs);
    PayloadsFit(channel, KIND_DATA, BeforeClose(channel, fs));
    var s := Stream(channel, [], data, [], false);
    HandedIsPrefix(s, ops);
    assert s.Pending() == Concat(data);
  }

  lemma {:induction false} BeforeCloseFits(channel: U32, fs: seq<Frame>)
    requires AllFit(fs)
    ensures AllFit(BeforeClose(channel, fs))
  {
    if fs != [] {
      BeforeCloseFits(channel, fs[1..]);
    }
  }
}
