/** The route scanner's decorator reader: every `@Name(...)`, its arguments matched by depth outside strings. */
module Decorators {
  import opened Wrappers
  import opened Quoting

  predicate IsWord(c: char) {
    'a' <= c <= 'z' || 'A' <= c <= 'Z' || '0' <= c <= '9' || c == '_'
  }

  predicate IsWordStart(c: char) {
    IsWord(c) && !('0' <= c <= '9')
  }

  /** The end of the run of word characters at `i`. */
  function WordEnd(text: string, i: nat): (n: nat)
    requires i <= |text|
    ensures i <= n <= |text| && (forall k | i <= k < n :: IsWord(text[k])) && (n < |text| ==> !IsWord(text[n]))
    decreases |text| - i
  {
    if i < |text| && IsWord(text[i]) then WordEnd(text, i + 1) else i
  }

  /** A match of `@([A-Za-z_]\w*)\(` at `i`, answered by where its arguments begin. */
  function StartAt(text: string, i: nat): Option<nat> {
    if i + 1 < |text| && text[i] == '@' && IsWordStart(text[i + 1]) then
      var n := WordEnd(text, i + 1);
      if n < |text| && text[n] == '(' then Some(n + 1) else None
    else None
  }

  ghost predicate IsFirstStart(text: string, from: nat, at: nat) {
    from <= at && StartAt(text, at).Some? && forall k | from <= k < at :: StartAt(text, k).None?
  }

  // ---- Parenthesis depth outside string literals ----

  datatype Scan = Scan(depth: int, quote: Option<char>, escaped: bool)

  const OPENED := Scan(1, None, false)

  function Advance(s: Scan, c: char): Scan {
    if s.escaped then s.(escaped := false)
    else if s.quote.Some? then
      if c == '\\' then s.(escaped := true) else if c == s.quote.value then s.(quote := None) else s
    else if c == '\'' || c == '"' || c == '`' then s.(quote := Some(c))
    else if c == '(' then s.(depth := s.depth + 1)
    else if c == ')' then s.(depth := s.depth - 1)
    else s
  }

  /** The scan after `text[from..to]`. */
  function ScanTo(text: string, from: nat, to: nat): Scan
    requires from <= to <= |text|
  {
    if from == to then OPENED else Advance(ScanTo(text, from, to - 1), text[to - 1])
  }

  /** `end` is just past the parenthesis matching the one before `from`: the first place of depth zero. */
  ghost predicate Closes(text: string, from: nat, end: nat) {
    && from < end <= |text|
    && ScanTo(text, from, end).depth == 0
    && (forall k | from <= k < end :: ScanTo(text, from, k).depth > 0)
  }

  ghost predicate NeverCloses(text: string, from: nat) {
    from <= |text| && forall k | from <= k <= |text| :: ScanTo(text, from, k).depth > 0
  }

  lemma ClosesOnce(text: string, from: nat, a: nat, b: nat)
    requires Closes(text, from, a) && Closes(text, from, b)
    ensures a == b
  {
  }

  /** A name's beginning: an at sign, a word that does not begin with a digit, and a parenthesis. */
  lemma {:induction false} StartsAre(text: string, i: nat, n: nat)
    ensures StartAt(text, i) == Some(n)
       <==> && i + 2 < n <= |text| && text[i] == '@' && text[n - 1] == '('
            && !('0' <= text[i + 1] <= '9')
            && forall k | i + 1 <= k < n - 1 ::
                 'a' <= text[k] <= 'z' || 'A' <= text[k] <= 'Z' || '0' <= text[k] <= '9' || text[k] == '_'
  {
    if i + 1 < |text| {
      var end := WordEnd(text, i + 1);
      if i + 2 < n <= |text| && text[n - 1] == '(' && forall k | i + 1 <= k < n - 1 :: IsWord(text[k]) {
        assert end == n - 1;
      }
    }
  }

  /** What arguments are made of: literals, parentheses, and characters that are neither. */
  datatype Token = Plain(c: char) | Literal(quote: char, body: string) | Open | Shut {
    predicate Valid() {
      match this
      case Plain(c) => !IsMark(c) && c != '(' && c != ')'
      case Literal(quote, body) => IsMark(quote) && IsBody(quote, body)
      case _ => true
    }

    function Written(): string {
      match this
      case Plain(c) => [c]
      case Literal(quote, body) => [quote] + body + [quote]
      case Open => "("
      case Shut => ")"
    }

    function Deeper(): int {
      if Open? then 1 else if Shut? then -1 else 0
    }
  }

  function WrittenOf(ts: seq<Token>): string {
    if ts == [] then "" else WrittenOf(ts[..|ts| - 1]) + ts[|ts| - 1].Written()
  }

  /** Parentheses opened and not shut. */
  function Depth(ts: seq<Token>): int {
    if ts == [] then 0 else Depth(ts[..|ts| - 1]) + ts[|ts| - 1].Deeper()
  }

  /** Every parenthesis that is shut was opened before. */
  predicate IsNested(ts: seq<Token>) {
    ts == [] || (IsNested(ts[..|ts| - 1]) && ts[|ts| - 1].Valid() && Depth(ts) >= 0)
  }

  lemma {:induction false} ScanOfBody(text: string, from: nat, i: nat, quote: char, body: string, depth: int)
    requires from <= i <= i + |body| <= |text| && At(text, i, body) && IsMark(quote) && IsBody(quote, body)
    requires ScanTo(text, from, i) == Scan(depth, Some(quote), false)
    ensures ScanTo(text, from, i + |body|) == Scan(depth, Some(quote), false)
    ensures forall k | i <= k <= i + |body| :: ScanTo(text, from, k).depth == depth
    decreases |body|
  {
    if body != "" {
      ScanStep(text, from, i);
      if body[0] == '\\' {
        assert body[1..][1..] == body[2..];
        ScanStep(text, from, i + 1);
        ScanOfBody(text, from, i + 2, quote, body[2..], depth);
      } else {
        ScanOfBody(text, from, i + 1, quote, body[1..], depth);
      }
    }
  }

  lemma ScanStep(text: string, from: nat, i: nat)
    requires from <= i < |text|
    ensures ScanTo(text, from, i + 1) == Advance(ScanTo(text, from, i), text[i])
  {
  }

  lemma ScanOfLiteral(text: string, from: nat, i: nat, quote: char, body: string, depth: int)
    requires from <= i <= i + |body| + 2 <= |text| && At(text, i, [quote] + body + [quote])
    requires IsMark(quote) && IsBody(quote, body)
    requires ScanTo(text, from, i) == Scan(depth, None, false)
    ensures ScanTo(text, from, i + |body| + 2) == Scan(depth, None, false)
    ensures forall k | i <= k < i + |body| + 2 :: ScanTo(text, from, k).depth == depth
  {
    AtConcat(text, i, [quote] + body, [quote]);
    AtConcat(text, i, [quote], body);
    var j := i + 1 + |body|;
    assert At(text, i, [quote]) && At(text, j, [quote]);
    assert text[i] == quote && text[j] == quote;
    ScanStep(text, from, i);
    ScanOfBody(text, from, i + 1, quote, body, depth);
    ScanStep(text, from, j);
  }

  lemma ScanOfToken(text: string, from: nat, i: nat, t: Token, depth: int)
    requires from <= i <= i + |t.Written()| <= |text| && At(text, i, t.Written()) && t.Valid()
    requires ScanTo(text, from, i) == Scan(depth, None, false)
    ensures ScanTo(text, from, i + |t.Written()|) == Scan(depth + t.Deeper(), None, false)
    ensures forall k | i <= k < i + |t.Written()| :: ScanTo(text, from, k).depth == depth
  {
    match t
    case Literal(quote, body) => ScanOfLiteral(text, from, i, quote, body, depth);
    case _ =>
      assert |t.Written()| == 1 && text[i] == t.Written()[0];
      ScanStep(text, from, i);
  }

  /** The scan is inside parentheses everywhere from `a` up to `b`. */
  ghost predicate IsInside(text: string, from: nat, a: nat, b: nat) {
    from <= a && b <= |text| && forall k | a <= k < b :: ScanTo(text, from, k).depth > 0
  }

  /** The scan after these tokens is where their depth says, and inside parentheses all along. */
  ghost predicate Scanned(text: string, from: nat, end: nat, depth: int) {
    && from <= end <= |text| && ScanTo(text, from, end) == Scan(depth, None, false)
    && IsInside(text, from, from, end)
  }

  lemma {:induction false} ScanOfTokens(text: string, from: nat, ts: seq<Token>) returns (end: nat)
    requires from <= |text| && IsNested(ts) && At(text, from, WrittenOf(ts))
    ensures end == from + |WrittenOf(ts)| && Scanned(text, from, end, 1 + Depth(ts))
    decreases |ts|
  {
    end := from;
    if ts != [] {
      LastToken(text, from, ts);
      end := ScanOfTokens(text, from, ts[..|ts| - 1]);
      end := ScannedFurther(text, from, end, ts[|ts| - 1], 1 + Depth(ts[..|ts| - 1]));
    }
  }

  lemma ScannedFurther(text: string, from: nat, i: nat, t: Token, depth: int) returns (end: nat)
    requires Scanned(text, from, i, depth) && depth > 0 && t.Valid() && At(text, i, t.Written())
    ensures end == i + |t.Written()| && Scanned(text, from, end, depth + t.Deeper())
  {
    end := i + |t.Written()|;
    AtSlice(text, i, t.Written());
    ScanOfToken(text, from, i, t, depth);
    InsideBoth(text, from, i, end, depth);
  }

  lemma InsideBoth(text: string, from: nat, i: nat, end: nat, depth: int)
    requires IsInside(text, from, from, i) && from <= i <= end <= |text| && depth > 0
    requires forall k | i <= k < end :: ScanTo(text, from, k).depth == depth
    ensures IsInside(text, from, from, end)
  {
  }

  lemma LastToken(text: string, from: nat, ts: seq<Token>)
    requires IsNested(ts) && ts != [] && At(text, from, WrittenOf(ts))
    ensures var before, t := ts[..|ts| - 1], ts[|ts| - 1];
            && IsNested(before) && t.Valid() && Depth(before) >= 0 && Depth(ts) == Depth(before) + t.Deeper()
            && At(text, from, WrittenOf(before)) && At(text, from + |WrittenOf(before)|, t.Written())
            && |WrittenOf(ts)| == |WrittenOf(before)| + |t.Written()|
  {
    var before, t := ts[..|ts| - 1], ts[|ts| - 1];
    assert WrittenOf(ts) == WrittenOf(before) + t.Written();
    AtConcat(text, from, WrittenOf(before), t.Written());
  }

  /**
   Arguments of literals, nested parentheses and anything else end at the parenthesis after
   them, and nowhere before: parentheses in literals count for nothing.
   */
  lemma {:induction false} NestedArgumentsClose(text: string, from: nat, ts: seq<Token>)
    requires IsNested(ts) && Depth(ts) == 0 && At(text, from, WrittenOf(ts) + ")")
    ensures Closes(text, from, from + |WrittenOf(ts)| + 1)
  {
    AtConcat(text, from, WrittenOf(ts), ")");
    AtSlice(text, from, WrittenOf(ts));
    var end := ScanOfTokens(text, from, ts);
    ShutCloses(text, from, end);
  }

  lemma ShutCloses(text: string, from: nat, end: nat)
    requires Scanned(text, from, end, 1) && At(text, end, ")")
    ensures Closes(text, from, end + 1)
  {
    assert end < |text| && text[end] == ')';
    ScanStep(text, from, end);
  }

  // ---- The list of decorators ----

  /** A decorator at `at`, its arguments `args..end - 1`. */
  datatype Span = Span(at: nat, args: nat, end: nat) {
    function Name(text: string): string
      requires at + 1 < args <= |text|
    {
      text[at + 1..args - 1]
    }

    function Args(text: string): string
      requires args < end <= |text|
    {
      text[args..end - 1]
    }
  }

  function Reached(spans: seq<Span>): nat {
    if spans == [] then 0 else spans[|spans| - 1].end
  }

  /** Each span is the first decorator after the one before it, read to its matching parenthesis. */
  ghost predicate Chain(text: string, spans: seq<Span>) {
    spans == [] ||
    var before, last := spans[..|spans| - 1], spans[|spans| - 1];
    && Chain(text, before)
    && IsFirstStart(text, Reached(before), last.at)
    && StartAt(text, last.at) == Some(last.args)
    && Closes(text, last.args, last.end)
  }

  ghost predicate NoStartFrom(text: string, from: nat) {
    forall k | from <= k :: StartAt(text, k).None?
  }

  method FindStart(text: string, from: nat) returns (at: Option<nat>)
    ensures at.Some? ==> IsFirstStart(text, from, at.value)
    ensures at.None? ==> NoStartFrom(text, from)
  {
    var i := from;
    while i < |text|
      invariant from <= i && forall k | from <= k < i :: StartAt(text, k).None?
      decreases |text| - i
    {
      if StartAt(text, i).Some? {
        return Some(i);
      }
      i := i + 1;
    }
    at := None;
  }

  /** The scan of one decorator's arguments; none when the text ends first. */
  method ReadArgs(text: string, from: nat) returns (end: Option<nat>)
    requires from <= |text|
    ensures end.Some? ==> Closes(text, from, end.value)
    ensures end.None? ==> NeverCloses(text, from)
  {
    var depth: int := 1;
    var quote: Option<char> := None;
    var index := from;
    while index < |text| && depth > 0
      invariant from <= index <= |text| + 1
      invariant index <= |text| ==> ScanTo(text, from, index) == Scan(depth, quote, false)
      invariant forall k | from <= k < index && k <= |text| :: ScanTo(text, from, k).depth > 0
      invariant index > |text| ==> depth > 0
      decreases |text| - index
    {
      var c := text[index];
      assert ScanTo(text, from, index + 1) == Advance(ScanTo(text, from, index), c);
      if quote.Some? {
        if c == '\\' {
          index := index + 1;
          if index < |text| {
            assert ScanTo(text, from, index + 1) == Advance(ScanTo(text, from, index), text[index]);
          }
        } else if c == quote.value {
          quote := None;
        }
      } else if c == '\'' || c == '"' || c == '`' {
        quote := Some(c);
      } else if c == '(' {
        depth := depth + 1;
      } else if c == ')' {
        depth := depth - 1;
      }
      index := index + 1;
    }
    if depth > 0 {
      return None;
    }
    end := Some(index);
  }

  /** Every decorator of the text in order, or the first one whose parenthesis is never closed. */
  method DecoratorsIn(text: string) returns (result: Result<seq<Span>, nat>, ghost before: seq<Span>)
    ensures result.Success? ==> Chain(text, result.value) && NoStartFrom(text, Reached(result.value))
    ensures result.Failure? ==>
              && Chain(text, before) && IsFirstStart(text, Reached(before), result.error)
              && NeverCloses(text, StartAt(text, result.error).value)
  {
    var found: seq<Span> := [];
    var lastIndex: nat := 0;
    while true
      invariant Chain(text, found) && lastIndex == Reached(found)
      decreases |text| - lastIndex
    {
      var at := FindStart(text, lastIndex);
      if at.None? {
        return Success(found), found;
      }
      var args := StartAt(text, at.value).value;
      var end := ReadArgs(text, args);
      if end.None? {
        return Failure(at.value), found;
      }
      ghost var earlier := found;
      found := found + [Span(at.value, args, end.value)];
      assert found[..|found| - 1] == earlier;
      lastIndex := end.value;
    }
  }

  // ---- What a list of decorators is ----

  lemma {:induction false} ChainPrefix(text: string, spans: seq<Span>, n: nat)
    requires Chain(text, spans) && n <= |spans|
    ensures Chain(text, spans[..n])
  {
    if n < |spans| {
      assert spans[..|spans| - 1][..n] == spans[..n];
      ChainPrefix(text, spans[..|spans| - 1], n);
    } else {
      assert spans[..n] == spans;
    }
  }

  /** Decorators come in order and do not overlap, and each one's arguments are its shortest balanced text. */
  lemma {:induction false} SpansAreDisjoint(text: string, spans: seq<Span>, i: nat, j: nat)
    requires Chain(text, spans) && i < j < |spans|
    ensures spans[i].at + 2 < spans[i].args < spans[i].end <= spans[j].at
    ensures Closes(text, spans[i].args, spans[i].end)
  {
    NextSpan(text, spans, i);
    NextSpan(text, spans, j);
    ChainPrefix(text, spans, j);
    ReachedGrows(text, spans[..j], i);
  }

  lemma {:induction false} ReachedGrows(text: string, spans: seq<Span>, i: nat)
    requires Chain(text, spans) && i < |spans|
    ensures spans[i].end <= Reached(spans)
  {
    if i < |spans| - 1 {
      ReachedGrows(text, spans[..|spans| - 1], i);
    }
  }

  /** There is one way to read a text: two lists of its decorators agree as far as both go. */
  lemma {:induction false} ChainsAgree(text: string, a: seq<Span>, b: seq<Span>)
    requires Chain(text, a) && Chain(text, b) && |a| <= |b|
    ensures a == b[..|a|]
  {
    ChainsAgreeTo(text, a, b, |a|);
    assert a[..|a|] == a;
  }

  lemma {:induction false} ChainsAgreeTo(text: string, a: seq<Span>, b: seq<Span>, n: nat)
    requires Chain(text, a) && Chain(text, b) && n <= |a| && n <= |b|
    ensures a[..n] == b[..n]
    decreases n
  {
    if n > 0 {
      ChainsAgreeTo(text, a, b, n - 1);
      SameNext(text, a, b, n - 1);
      assert a[..n] == a[..n - 1] + [a[n - 1]] && b[..n] == b[..n - 1] + [b[n - 1]];
    }
  }

  lemma SameNext(text: string, a: seq<Span>, b: seq<Span>, n: nat)
    requires Chain(text, a) && Chain(text, b) && n < |a| && n < |b| && a[..n] == b[..n]
    ensures a[n] == b[n]
  {
    NextSpan(text, a, n);
    NextSpan(text, b, n);
    FirstStartIsOne(text, Reached(a[..n]), a[n].at, b[n].at);
    ClosesOnce(text, a[n].args, a[n].end, b[n].end);
  }

  lemma NextSpan(text: string, spans: seq<Span>, n: nat)
    requires Chain(text, spans) && n < |spans|
    ensures IsFirstStart(text, Reached(spans[..n]), spans[n].at) && StartAt(text, spans[n].at) == Some(spans[n].args)
    ensures Closes(text, spans[n].args, spans[n].end)
  {
    ChainPrefix(text, spans, n + 1);
    assert spans[..n + 1][..n] == spans[..n];
  }

  lemma FirstStartIsOne(text: string, from: nat, a: nat, b: nat)
    requires IsFirstStart(text, from, a) && IsFirstStart(text, from, b)
    ensures a == b
  {
  }

  /** A text is either read to its end or refused for an unclosed decorator, never both. */
  lemma {:induction false} ReadOrRefused(text: string, all: seq<Span>, before: seq<Span>, at: nat)
    requires Chain(text, all) && NoStartFrom(text, Reached(all))
    requires Chain(text, before) && IsFirstStart(text, Reached(before), at)
    ensures |before| < |all| && all[|before|].at == at && !NeverCloses(text, StartAt(text, at).value)
  {
    var n := |before|;
    if |all| < n {
      ChainsAgree(text, all, before);
      NextSpan(text, before, |all|);
      assert false;
    }
    ChainsAgree(text, before, all);
    if n < |all| {
      NextSpan(text, all, n);
      FirstStartIsOne(text, Reached(before), all[n].at, at);
    }
  }
}
