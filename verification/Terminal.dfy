/**
 Watching a terminal stream: escape sequences are stripped by an automaton fed
 in whatever pieces the reads come in, and a needle is searched for in the
 visible text with only a short tail kept between pieces.
 */
module Terminal {
  import opened Bytes

  const ESC: Byte := 0x1b
  const BEL: Byte := 0x07
  const NEWLINE: Byte := 10
  const BACKSLASH: Byte := 0x5c

  /** Which escape the byte after `ESC` begins: 2 a control sequence, 3 a string, 5 one more byte, 0 none. */
  function AfterEscape(c: Byte): nat {
    if c == 0x5b then 2
    else if c == 0x5d || c == 0x50 || c == 0x58 || c == 0x5e || c == 0x5f then 3
    else if c == 0x28 || c == 0x29 || c == 0x2a || c == 0x2b || c == 0x23 || c == 0x25 || c == 0x20 then 5
    else 0
  }

  function Next(st: nat, c: Byte): nat {
    match st
    case 0 => if c == ESC then 1 else 0
    case 1 => AfterEscape(c)
    case 2 => if 0x40 <= c <= 0x7e then 0 else 2
    case 3 => if c == BEL then 0 else if c == ESC then 4 else 3
    case 4 => if c == BACKSLASH then 0 else 3
    case 5 => 0
    case _ => st
  }

  predicate IsVisible(c: Byte) {
    c >= 0x20 || c == NEWLINE
  }

  function After(st: nat, p: seq<Byte>): nat
    decreases |p|
  {
    if p == [] then st else After(Next(st, p[0]), p[1..])
  }

  /** What is left of `p`, read from state `st`. */
  function Text(st: nat, p: seq<Byte>): seq<Byte>
    decreases |p|
  {
    if p == [] then []
    else (if st == 0 && IsVisible(p[0]) then [p[0]] else []) + Text(Next(st, p[0]), p[1..])
  }

  lemma {:induction false} TextInTwo(st: nat, p: seq<Byte>, q: seq<Byte>)
    ensures After(st, p + q) == After(After(st, p), q)
    ensures Text(st, p + q) == Text(st, p) + Text(After(st, p), q)
    decreases |p|
  {
    if p == [] {
      assert p + q == q;
    } else {
      assert (p + q)[1..] == p[1..] + q;
      TextInTwo(Next(st, p[0]), p[1..], q);
    }
  }

  lemma FeedStep(st: nat, p: seq<Byte>, i: nat)
    requires i < |p|
    ensures After(st, p[i..]) == After(Next(st, p[i]), p[i + 1..])
    ensures Text(st, p[i..]) == (if st == 0 && IsVisible(p[i]) then [p[i]] else []) + Text(Next(st, p[i]), p[i + 1..])
  {
    assert p[i..][1..] == p[i + 1..];
  }

  class VtText {
    var st: nat

    constructor ()
      ensures st == 0
    {
      st := 0;
    }

    method Feed(p: seq<Byte>) returns (b: seq<Byte>)
      modifies this
      ensures b == Text(old(st), p) && st == After(old(st), p)
    {
      b := [];
      for i := 0 to |p|
        invariant After(old(st), p) == After(st, p[i..])
        invariant Text(old(st), p) == b + Text(st, p[i..])
      {
        FeedStep(st, p, i);
        if st == 0 && IsVisible(p[i]) {
          b := b + [p[i]];
        }
        st := Next(st, p[i]);
      }
      assert p[|p|..] == [];
    }
  }

  // ---- What the automaton strips ----

  datatype Piece =
    | Plain(c: Byte)
    | Control(c: Byte)
    | Csi(parameters: seq<Byte>, final: Byte)
    | Str(introducer: Byte, body: seq<Byte>, bell: bool)
    | Charset(introducer: Byte, designator: Byte)
    | TwoByte(c: Byte)
  {
    predicate Valid() {
      match this
      case Plain(c) => c >= 0x20 || c == 10
      case Control(c) => c < 0x20 && c != 10 && c != 0x1b
      case Csi(parameters, final) => 0x40 <= final <= 0x7e && NoFinal(parameters)
      case Str(introducer, body, _) => IsOneOf(introducer, "]PX^_") && IsBody(body)
      case Charset(introducer, _) => IsOneOf(introducer, "()*+#% ")
      case TwoByte(c) => !IsOneOf(c, "[]PX^_()*+#% ")
    }

    function Bytes(): seq<Byte> {
      match this
      case Plain(c) => [c]
      case Control(c) => [c]
      case Csi(parameters, final) => [ESC, 0x5b] + (parameters + [final])
      case Str(introducer, body, bell) => [ESC, introducer] + (body + if bell then [BEL] else [ESC, BACKSLASH])
      case Charset(introducer, designator) => [ESC, introducer, designator]
      case TwoByte(c) => [ESC, c]
    }

    function Visible(): seq<Byte> {
      if Plain? then [c] else []
    }
  }

  /** `c` is the code of one of these characters. */
  predicate IsOneOf(c: Byte, chars: string) {
    exists i | 0 <= i < |chars| :: c == chars[i] as int
  }

  lemma IntroducersAre(c: Byte)
    ensures AfterEscape(c) == 3 <==> IsOneOf(c, "]PX^_")
    ensures AfterEscape(c) == 5 <==> IsOneOf(c, "()*+#% ")
    ensures AfterEscape(c) == 0 <==> !IsOneOf(c, "[]PX^_()*+#% ")
  {
    var strings, sets, all := "]PX^_", "()*+#% ", "[]PX^_()*+#% ";
    assert strings[0] == ']' && strings[1] == 'P' && strings[2] == 'X' && strings[3] == '^' && strings[4] == '_';
    assert sets[0] == '(' && sets[1] == ')' && sets[2] == '*' && sets[3] == '+' && sets[4] == '#';
    assert sets[5] == '%' && sets[6] == ' ';
    assert all[0] == '[' && forall i | 0 <= i < 5 :: all[i + 1] == strings[i];
    assert forall i | 0 <= i < 7 :: all[i + 6] == sets[i];
  }

  predicate NoFinal(p: seq<Byte>) {
    p == [] || (!(0x40 <= p[0] <= 0x7e) && NoFinal(p[1..]))
  }

  /** The text of a string escape: no bell, and no `ESC` but one followed by something other than a backslash. */
  predicate IsBody(p: seq<Byte>) {
    if p == [] then true
    else if p[0] == ESC then |p| >= 2 && p[1] != BACKSLASH && IsBody(p[2..])
    else p[0] != BEL && IsBody(p[1..])
  }

  function BytesOf(ps: seq<Piece>): seq<Byte> {
    if ps == [] then [] else ps[0].Bytes() + BytesOf(ps[1..])
  }

  function VisibleOf(ps: seq<Piece>): seq<Byte> {
    if ps == [] then [] else ps[0].Visible() + VisibleOf(ps[1..])
  }

  lemma {:induction false} ParametersStay(p: seq<Byte>, q: seq<Byte>)
    requires NoFinal(p)
    ensures Text(2, p + q) == Text(2, q) && After(2, p + q) == After(2, q)
  {
    if p == [] {
      assert p + q == q;
    } else {
      assert (p + q)[1..] == p[1..] + q;
      ParametersStay(p[1..], q);
    }
  }

  lemma {:induction false} BodyStays(p: seq<Byte>, q: seq<Byte>)
    requires IsBody(p)
    ensures Text(3, p + q) == Text(3, q) && After(3, p + q) == After(3, q)
    decreases |p|
  {
    if p == [] {
      assert p + q == q;
    } else if p[0] == ESC {
      assert (p + q)[1..][1..] == p[2..] + q;
      BodyStays(p[2..], q);
    } else {
      assert (p + q)[1..] == p[1..] + q;
      BodyStays(p[1..], q);
    }
  }

  lemma Short(st: nat, p: seq<Byte>)
    requires 1 <= |p| <= 2
    ensures After(st, p) == if |p| == 1 then Next(st, p[0]) else Next(Next(st, p[0]), p[1])
    ensures st != 0 && (|p| == 2 ==> Next(st, p[0]) != 0) ==> Text(st, p) == []
  {
    if |p| == 2 {
      var st1 := Next(st, p[0]);
      assert p[1..] == [p[1]] && [p[1]][1..] == [];
      assert After(st, p) == After(st1, [p[1]]) == Next(st1, p[1]);
      assert Text(st1, [p[1]]) == (if st1 == 0 && IsVisible(p[1]) then [p[1]] else []);
    } else {
      assert p[1..] == [];
    }
  }

  lemma PieceIsStripped(piece: Piece)
    requires piece.Valid()
    ensures Text(0, piece.Bytes()) == piece.Visible() && After(0, piece.Bytes()) == 0
  {
    var p := piece.Bytes();
    if |p| > 1 {
      IntroducersAre(p[1]);
    }
    match piece
    case Csi(parameters, final) =>
      assert p[1..][1..] == parameters + [final];
      ParametersStay(parameters, [final]);
      Short(2, [final]);
    case Str(introducer, body, bell) =>
      var end := if bell then [BEL] else [ESC, BACKSLASH];
      assert p[1..][1..] == body + end;
      BodyStays(body, end);
      Short(3, end);
    case Charset(introducer, designator) =>
      assert p[1..][1..] == [designator];
      Short(5, [designator]);
    case TwoByte(c) =>
      assert p[1..] == [c];
      Short(1, [c]);
    case _ =>
      assert p[1..] == [];
  }

  /** A stream of plain bytes and whole escapes, of every kind, comes out as its plain bytes. */
  lemma {:induction false} OnlyTextIsLeft(ps: seq<Piece>)
    requires forall i | 0 <= i < |ps| :: ps[i].Valid()
    ensures Text(0, BytesOf(ps)) == VisibleOf(ps) && After(0, BytesOf(ps)) == 0
  {
    if ps != [] {
      PieceIsStripped(ps[0]);
      OnlyTextIsLeft(ps[1..]);
      TextInTwo(0, ps[0].Bytes(), BytesOf(ps[1..]));
    }
  }

  // ---- Reads in any pieces ----

  /** The texts passed on for a sequence of reads: a read with no visible text passes nothing on. */
  function Texts(inputs: seq<seq<Byte>>): seq<seq<Byte>> {
    if inputs == [] then []
    else
      var n := |inputs| - 1;
      var t := Text(After(0, Concat(inputs[..n])), inputs[n]);
      if t == [] then Texts(inputs[..n]) else Texts(inputs[..n]) + [t]
  }

  /** However a stream is cut into reads, the visible text is that of one read of the whole. */
  lemma {:induction false} CutsDoNotMatter(inputs: seq<seq<Byte>>)
    ensures Concat(Texts(inputs)) == Text(0, Concat(inputs))
    ensures forall i | 0 <= i < |Texts(inputs)| :: Texts(inputs)[i] != []
  {
    if inputs != [] {
      var n := |inputs| - 1;
      CutsDoNotMatter(inputs[..n]);
      TextInTwo(0, Concat(inputs[..n]), inputs[n]);
      var before, t := Texts(inputs[..n]), Text(After(0, Concat(inputs[..n])), inputs[n]);
      assert (before + [t])[..|before|] == before;
    }
  }

  // ---- Waiting for a needle ----

  ghost predicate OccursAt(hay: seq<Byte>, sub: seq<Byte>, i: nat) {
    i + |sub| <= |hay| && hay[i..i + |sub|] == sub
  }

  ghost predicate Contains(hay: seq<Byte>, sub: seq<Byte>) {
    exists i: nat :: OccursAt(hay, sub, i)
  }

  method Search(hay: seq<Byte>, sub: seq<Byte>) returns (found: bool)
    ensures found == Contains(hay, sub)
  {
    var i: nat := 0;
    while i + |sub| <= |hay|
      invariant forall k: nat | k < i :: !OccursAt(hay, sub, k)
      decreases |hay| - i
    {
      if hay[i..i + |sub|] == sub {
        assert OccursAt(hay, sub, i);
        return true;
      }
      i := i + 1;
    }
    found := false;
  }

  lemma OccursAfter(before: seq<Byte>, hay: seq<Byte>, sub: seq<Byte>, i: nat)
    ensures OccursAt(hay, sub, i) <==> OccursAt(before + hay, sub, |before| + i)
  {
    if i + |sub| <= |hay| {
      assert (before + hay)[|before| + i..|before| + i + |sub|] == hay[i..i + |sub|];
    }
  }

  lemma OccursBefore(hay: seq<Byte>, more: seq<Byte>, sub: seq<Byte>, i: nat)
    requires i + |sub| <= |hay|
    ensures OccursAt(hay, sub, i) <==> OccursAt(hay + more, sub, i)
  {
    assert (hay + more)[i..i + |sub|] == hay[i..i + |sub|];
  }

  lemma ContainsMore(hay: seq<Byte>, more: seq<Byte>, sub: seq<Byte>)
    requires Contains(hay, sub)
    ensures Contains(hay + more, sub)
  {
    var i: nat :| OccursAt(hay, sub, i);
    OccursBefore(hay, more, sub, i);
  }

  /** `tail` is the end of `all`, and long enough that no occurrence ending after it can begin before it. */
  ghost predicate IsTail(tail: seq<Byte>, all: seq<Byte>, length: nat) {
    && |tail| <= |all| && tail == all[|all| - |tail|..]
    && (tail == all || |tail| >= length)
  }

  /** A tail with which the search can go on: all of the text, or its end when the text lacks `sub`. */
  ghost predicate IsFit(tail: seq<Byte>, all: seq<Byte>, sub: seq<Byte>) {
    IsTail(tail, all, |sub|) && (tail == all || !Contains(all, sub))
  }

  lemma {:induction false} TailIsEnough(tail: seq<Byte>, all: seq<Byte>, more: seq<Byte>, sub: seq<Byte>)
    requires IsFit(tail, all, sub)
    ensures Contains(tail + more, sub) <==> Contains(all + more, sub)
  {
    var cut := |all| - |tail|;
    var before, hay := all[..cut], tail + more;
    assert before + tail == all;
    Associative(before, tail, more);
    if Contains(hay, sub) {
      var i: nat :| OccursAt(hay, sub, i);
      OccursAfter(before, hay, sub, i);
    }
    if Contains(all + more, sub) {
      var i: nat :| OccursAt(all + more, sub, i);
      if i < cut {
        OccursBefore(all, more, sub, i);
        assert false;
      }
      OccursAfter(before, hay, sub, i - cut);
    }
  }

  /**
   What the wait receives next: a chunk of text, or its deadline; the end of the
   sequence is the end of the stream.
   */
  datatype Signal = Chunk(text: seq<Byte>) | Deadline

  datatype Outcome = Found | Ended | TimedOut

  function TextOf(signals: seq<Signal>): seq<Byte> {
    if signals == [] then []
    else
      var x := signals[|signals| - 1];
      TextOf(signals[..|signals| - 1]) + if x.Chunk? then x.text else []
  }

  /** All that has been heard after the first `n` signals: the tail kept so far, and their text. */
  function Heard(tail: seq<Byte>, signals: seq<Signal>, n: nat): seq<Byte>
    requires n <= |signals|
  {
    tail + TextOf(signals[..n])
  }

  /** The end of `hay` that is kept for a needle of this length. */
  function Kept(hay: seq<Byte>, length: nat): seq<Byte> {
    if |hay| > length then hay[|hay| - length..] else hay
  }

  lemma KeptIsTail(tail: seq<Byte>, all: seq<Byte>, text: seq<Byte>, length: nat)
    requires IsTail(tail, all, length)
    ensures IsTail(Kept(tail + text, length), all + text, length)
  {
    var hay, more := tail + text, all + text;
    assert hay == more[|more| - |hay|..];
    if |hay| > length {
      assert hay[|hay| - length..] == more[|more| - length..];
    } else if tail == all {
      assert hay == more;
    } else {
      assert text == [] && more == all && hay == tail;
    }
  }

  lemma HeardNext(tail: seq<Byte>, signals: seq<Signal>, n: nat)
    requires n < |signals| && signals[n].Chunk?
    ensures Heard(tail, signals, n + 1) == Heard(tail, signals, n) + signals[n].text
  {
    assert signals[..n + 1][..n] == signals[..n];
  }

  class Viewer {
    var tail: seq<Byte>

    constructor ()
      ensures tail == []
    {
      tail := [];
    }

    /** Looks for `sub` in the tail and one more text, and keeps a new tail. */
    method Look(sub: seq<Byte>, text: seq<Byte>, ghost all: seq<Byte>) returns (found: bool)
      requires IsFit(tail, all, sub)
      modifies this
      ensures found == Contains(all + text, sub)
      ensures if found then tail == [] else IsFit(tail, all + text, sub) && |tail| <= |sub|
    {
      TailIsEnough(tail, all, text, sub);
      var hay := tail + text;
      KeptIsTail(tail, all, text, |sub|);
      found := Search(hay, sub);
      if found {
        tail := [];
      } else {
        tail := Kept(hay, |sub|);
      }
    }

    /**
     Ends at the first chunk with which the text so far, after the tail that was
     kept, contains `sub`, unless the deadline or the end comes first.
     */
    method WaitFor(sub: seq<Byte>, signals: seq<Signal>) returns (outcome: Outcome, used: nat)
      modifies this
      ensures IsWait(old(tail), sub, signals, outcome, used)
      ensures outcome.Found? ==> tail == []
      ensures !outcome.Found? ==> IsFit(tail, Heard(old(tail), signals, Chunked(outcome, used)), sub)
    {
      assert tail == Heard(tail, signals, 0);
      for i := 0 to |signals|
        invariant NotBy(old(tail), sub, signals, i)
        invariant IsFit(tail, Heard(old(tail), signals, i), sub)
      {
        if signals[i].Deadline? {
          return TimedOut, i + 1;
        }
        HeardNext(old(tail), signals, i);
        var found := Look(sub, signals[i].text, Heard(old(tail), signals, i));
        if found {
          return Found, i + 1;
        }
        NotByNext(old(tail), sub, signals, i);
      }
      outcome, used := Ended, |signals|;
    }
  }

  lemma NotByNext(tail: seq<Byte>, sub: seq<Byte>, signals: seq<Signal>, n: nat)
    requires NotBy(tail, sub, signals, n) && n < |signals| && signals[n].Chunk?
    requires !Contains(Heard(tail, signals, n + 1), sub)
    ensures NotBy(tail, sub, signals, n + 1)
  {
  }

  /** How many of the signals a wait used up were chunks it kept the end of. */
  function Chunked(outcome: Outcome, used: nat): nat {
    if outcome.TimedOut? && used > 0 then used - 1 else used
  }

  /** The first `n` signals are chunks with none of which the needle is complete. */
  ghost predicate NotBy(tail: seq<Byte>, sub: seq<Byte>, signals: seq<Signal>, n: nat) {
    && n <= |signals|
    && (forall k | 0 <= k < n :: signals[k].Chunk?)
    && (forall k | 1 <= k <= n :: !Contains(Heard(tail, signals, k), sub))
  }

  /** How a wait ends: at the first chunk that completes the needle, at its deadline, or with the stream. */
  ghost predicate IsWait(tail: seq<Byte>, sub: seq<Byte>, signals: seq<Signal>, outcome: Outcome, used: nat) {
    match outcome
    case Found => 1 <= used <= |signals| && NotBy(tail, sub, signals, used - 1) && signals[used - 1].Chunk?
                  && Contains(Heard(tail, signals, used), sub)
    case TimedOut => 1 <= used <= |signals| && NotBy(tail, sub, signals, used - 1) && signals[used - 1].Deadline?
    case Ended => used == |signals| && NotBy(tail, sub, signals, used)
  }

  function Chunks(texts: seq<seq<Byte>>): seq<Signal> {
    if texts == [] then [] else Chunks(texts[..|texts| - 1]) + [Chunk(texts[|texts| - 1])]
  }

  lemma {:induction false} ChunksAre(texts: seq<seq<Byte>>)
    ensures |Chunks(texts)| == |texts| && forall i | 0 <= i < |texts| :: Chunks(texts)[i] == Chunk(texts[i])
  {
    if texts != [] {
      ChunksAre(texts[..|texts| - 1]);
    }
  }

  lemma {:induction false} ChunksCarry(texts: seq<seq<Byte>>, k: nat)
    requires k <= |texts| == |Chunks(texts)|
    requires forall i | 0 <= i < |texts| :: Chunks(texts)[i] == Chunk(texts[i])
    ensures TextOf(Chunks(texts)[..k]) == Concat(texts[..k])
  {
    if k > 0 {
      ChunksCarry(texts, k - 1);
      assert Chunks(texts)[..k][..k - 1] == Chunks(texts)[..k - 1];
      assert texts[..k][..k - 1] == texts[..k - 1];
    }
  }

  /** Whether a wait without a deadline finds `sub` when given these texts. */
  ghost predicate FindsIn(tail: seq<Byte>, texts: seq<seq<Byte>>, sub: seq<Byte>) {
    exists k :: 1 <= k <= |texts| && Contains(tail + Concat(texts[..k]), sub)
  }

  /** A wait on a stream's texts, with no deadline, succeeds exactly when it finds `sub` in them. */
  lemma {:induction false} WaitFinds(tail: seq<Byte>, texts: seq<seq<Byte>>, sub: seq<Byte>,
                                     outcome: Outcome, used: nat)
    requires IsWait(tail, sub, Chunks(texts), outcome, used)
    ensures outcome == if FindsIn(tail, texts, sub) then Found else Ended
  {
    ChunksAre(texts);
    forall k: nat | k <= |texts|
      ensures Heard(tail, Chunks(texts), k) == tail + Concat(texts[..k])
    {
      ChunksCarry(texts, k);
    }
    assert 0 <= |texts|;
    match outcome
    case Found => assert Contains(tail + Concat(texts[..used]), sub);
    case TimedOut => assert false;
    case Ended =>
      forall k | 1 <= k <= |texts|
        ensures !Contains(tail + Concat(texts[..k]), sub)
      {
        assert !Contains(Heard(tail, Chunks(texts), k), sub);
      }
  }

  /**
   Whether a wait on a stream succeeds depends on the stream's bytes, not on how the
   reads cut them: it does exactly when there is visible text that completes the needle.
   */
  lemma {:induction false} FindingIgnoresCuts(tail: seq<Byte>, inputs: seq<seq<Byte>>, sub: seq<Byte>,
                                             outcome: Outcome, used: nat)
    requires IsWait(tail, sub, Chunks(Texts(inputs)), outcome, used)
    ensures var text := Text(0, Concat(inputs));
            outcome == if text != [] && Contains(tail + text, sub) then Found else Ended
  {
    WaitFinds(tail, Texts(inputs), sub, outcome, used);
    CutsDoNotMatter(inputs);
    FindingNeedsAll(tail, Texts(inputs), sub);
  }

  /** Two cuts of one stream end a wait alike. */
  lemma {:induction false} CutsEndAlike(tail: seq<Byte>, a: seq<seq<Byte>>, b: seq<seq<Byte>>, sub: seq<Byte>,
                                       outcomeA: Outcome, usedA: nat, outcomeB: Outcome, usedB: nat)
    requires Concat(a) == Concat(b)
    requires IsWait(tail, sub, Chunks(Texts(a)), outcomeA, usedA)
    requires IsWait(tail, sub, Chunks(Texts(b)), outcomeB, usedB)
    ensures outcomeA == outcomeB
  {
    FindingIgnoresCuts(tail, a, sub, outcomeA, usedA);
    FindingIgnoresCuts(tail, b, sub, outcomeB, usedB);
  }

  lemma FindingNeedsAll(tail: seq<Byte>, texts: seq<seq<Byte>>, sub: seq<Byte>)
    requires forall i | 0 <= i < |texts| :: texts[i] != []
    ensures FindsIn(tail, texts, sub) <==> Concat(texts) != [] && Contains(tail + Concat(texts), sub)
  {
    if FindsIn(tail, texts, sub) {
      var k :| 1 <= k <= |texts| && Contains(tail + Concat(texts[..k]), sub);
      FoundEarlyStays(tail, texts, sub, k);
    }
    if texts != [] && Contains(tail + Concat(texts), sub) {
      assert texts[..|texts|] == texts;
    }
  }

  lemma FoundEarlyStays(tail: seq<Byte>, texts: seq<seq<Byte>>, sub: seq<Byte>, k: nat)
    requires k <= |texts| && Contains(tail + Concat(texts[..k]), sub)
    ensures Contains(tail + Concat(texts), sub)
  {
    ConcatPrefix(texts, k);
    var early := Concat(texts[..k]);
    var more :| Concat(texts) == early + more;
    Associative(tail, early, more);
    ContainsMore(tail + early, more, sub);
  }
}
