/** The route scanner's literal lists: what a decorator's arguments may be, read and printed. */
module Literals {
  import opened Wrappers
  import opened Quoting

  /** A `token` is a plain quoted word; a `text` is one literal in any quotes. */
  datatype Shape = Token | Text

  /** White space as a regular expression's `\s` has it. */
  predicate IsSpace(c: char) {
    var x := c as int;
    || 9 <= x <= 13 || x == 32 || x == 0xA0 || x == 0x1680 || 0x2000 <= x <= 0x200A
    || x == 0x2028 || x == 0x2029 || x == 0x202F || x == 0x205F || x == 0x3000 || x == 0xFEFF
  }

  predicate IsQuote(c: char) {
    c == '\'' || c == '"' || c == '`'
  }

  predicate IsTokenChar(c: char) {
    c != '\'' && c != '"' && c != '\\' && c != '`' && c != '$'
  }

  predicate HasSubstitution(v: string) {
    exists k | 0 <= k < |v| - 1 :: v[k] == '$' && v[k + 1] == '{'
  }

  predicate IsPlain(v: string) {
    forall k | 0 <= k < |v| :: IsTokenChar(v[k])
  }

  predicate Readable(shape: Shape, quote: char, v: string) {
    if shape.Token? then quote != '`' && IsPlain(v) else !(quote == '`' && HasSubstitution(v))
  }

  /** Where the literal whose text starts at `i` is closed: at the first quote with no backslash before it. */
  function BodyEnd(quote: char, s: string, i: nat): (n: Option<nat>)
    ensures n.Some? ==> i <= n.value < |s| && s[n.value] == quote
    decreases |s| - i
  {
    if i >= |s| then None
    else if s[i] == quote then Some(i)
    else BodyEnd(quote, s, i + if s[i] == '\\' then 2 else 1)
  }

  /** `v` can stand between two `quote`s: the quote after it is the one that closes. */
  predicate StandsIn(quote: char, v: string) {
    BodyEnd(quote, v + [quote], 0) == Some(|v|)
  }

  function SpaceEnd(s: string, i: nat): (n: nat)
    requires i <= |s|
    ensures i <= n <= |s|
    decreases |s| - i
  {
    if i < |s| && IsSpace(s[i]) then SpaceEnd(s, i + 1) else i
  }

  lemma {:induction false} SpaceUpTo(s: string, i: nat)
    requires i <= |s|
    ensures AllSpace(s[i..SpaceEnd(s, i)])
    ensures SpaceEnd(s, i) < |s| ==> !IsSpace(s[SpaceEnd(s, i)])
    decreases |s| - i
  {
    if i < |s| && IsSpace(s[i]) {
      SpaceUpTo(s, i + 1);
      assert s[i..SpaceEnd(s, i)] == [s[i]] + s[i + 1..SpaceEnd(s, i)];
    }
  }

  predicate AllSpace(s: string) {
    forall i | 0 <= i < |s| :: IsSpace(s[i])
  }

  /** A literal as written: its quotes, its text, the space after it, and a comma with the space after that. */
  datatype Literal = Literal(quote: char, value: string, after: string, comma: bool, gap: string) {
    predicate Valid(shape: Shape) {
      && IsQuote(quote) && StandsIn(quote, value) && Readable(shape, quote, value)
      && AllSpace(after) && AllSpace(gap) && (!comma ==> gap == "")
    }

    function Tail(): string {
      if comma then after + "," + gap else after
    }

    function Written(): string {
      [quote] + value + [quote] + Tail()
    }
  }

  /** Commas separate the literals; the last may have one too. */
  predicate IsList(shape: Shape, ls: seq<Literal>) {
    ls == [] || (ls[0].Valid(shape) && (ls[1..] != [] ==> ls[0].comma) && IsList(shape, ls[1..]))
  }

  function Print(ls: seq<Literal>): string {
    if ls == [] then "" else ls[0].Written() + Print(ls[1..])
  }

  function Values(ls: seq<Literal>): seq<string> {
    if ls == [] then [] else [ls[0].value] + Values(ls[1..])
  }

  // ---- What is valid ----

  lemma {:induction false} BodiesEnd(quote: char, v: string, rest: string)
    requires quote != '\\'
    ensures IsBody(quote, v) <==> BodyEnd(quote, v + [quote] + rest, 0) == Some(|v|)
    decreases |v|
  {
    var s := v + [quote] + rest;
    if v != "" {
      var skip := if v[0] == '\\' then 2 else 1;
      if v[0] != quote && skip <= |v| {
        assert s[skip..] == v[skip..] + [quote] + rest;
        BodiesEnd(quote, v[skip..], rest);
        BodyEndShifts(quote, s, skip, 0);
      }
    }
  }

  lemma {:induction false} BodyEndShifts(quote: char, s: string, n: nat, i: nat)
    requires n + i <= |s|
    ensures BodyEnd(quote, s[n..], i)
         == if BodyEnd(quote, s, n + i).None? then None else Some(BodyEnd(quote, s, n + i).value - n)
    decreases |s| - i
  {
    if n + i < |s| && s[n + i] != quote {
      var skip := if s[n + i] == '\\' then 2 else 1;
      if n + i + skip <= |s| {
        BodyEndShifts(quote, s, n, i + skip);
      }
    }
  }

  /**
   What may stand between which quotes: a token's text has none of five characters and no
   backticks around it; a text's may have anything its quotes can hold, but between backticks
   no substitution.
   */
  lemma {:induction false} ValidMeans(l: Literal, shape: Shape)
    ensures l.Valid(shape)
       <==> && IsMark(l.quote) && IsBody(l.quote, l.value)
            && (shape.Token? ==> l.quote != '`' && forall c | c in l.value :: c !in "'\"\\`$")
            && (shape.Text? && l.quote == '`' ==>
                  forall k | 0 <= k < |l.value| - 1 :: !(l.value[k] == '$' && l.value[k + 1] == '{'))
            && AllSpace(l.after) && AllSpace(l.gap) && (!l.comma ==> l.gap == "")
  {
    if IsQuote(l.quote) {
      BodiesEnd(l.quote, l.value, "");
      assert l.value + [l.quote] + "" == l.value + [l.quote];
    }
    assert IsPlain(l.value) <==> forall c | c in l.value :: c !in "'\"\\`$" by {
      if forall c | c in l.value :: c !in "'\"\\`$" {
        forall k | 0 <= k < |l.value|
          ensures IsTokenChar(l.value[k])
        {
          assert l.value[k] in l.value;
        }
      }
    }
  }

  /** The white space of a regular expression, character by character. */
  lemma SpaceMeans(c: char)
    ensures IsSpace(c)
       <==> c as int in {
              9, 10, 11, 12, 13, 32, 0xA0, 0x1680, 0x2000, 0x2001, 0x2002, 0x2003, 0x2004, 0x2005, 0x2006, 0x2007,
              0x2008, 0x2009, 0x200A, 0x2028, 0x2029, 0x202F, 0x205F, 0x3000, 0xFEFF }
  {
  }

  // ---- Reading ----

  /** Past the space, comma and space after a literal; none when something else follows it. */
  function TailEnd(s: string, i: nat): (n: Option<nat>)
    requires i <= |s|
    ensures n.Some? ==> i <= n.value <= |s|
  {
    var a := SpaceEnd(s, i);
    if a == |s| then Some(a) else if s[a] != ',' then None else Some(SpaceEnd(s, a + 1))
  }

  /** The literal at `i`: where it is closed, and where the next one would begin. */
  function ReadOne(shape: Shape, s: string, i: nat): (r: Option<(nat, nat)>)
    requires i < |s|
    ensures r.Some? ==> i < r.value.0 < r.value.1 <= |s|
  {
    if !IsQuote(s[i]) then None
    else
      var close := BodyEnd(s[i], s, i + 1);
      if close.None? || !Readable(shape, s[i], s[i + 1..close.value]) then None
      else
        var end := TailEnd(s, close.value + 1);
        if end.None? then None else Some((close.value, end.value))
  }

  function ReadFrom(shape: Shape, s: string, i: nat): Option<seq<string>>
    decreases |s| - i
  {
    if i >= |s| then Some([])
    else
      var one := ReadOne(shape, s, i);
      if one.None? then None else Before([s[i + 1..one.value.0]], ReadFrom(shape, s, one.value.1))
  }

  function Before(first: seq<string>, rest: Option<seq<string>>): Option<seq<string>> {
    if rest.None? then None else Some(first + rest.value)
  }

  lemma ReadsOneMore(shape: Shape, s: string, i: nat, close: nat, end: nat, v: string)
    requires i < |s| && ReadOne(shape, s, i) == Some((close, end)) && v == s[i + 1..close]
    ensures ReadFrom(shape, s, i) == Before([v], ReadFrom(shape, s, end))
  {
  }

  datatype Refusal = NotLiteral | NoReason | TooMany

  /** What the reader answers once the arguments are read: a text is one literal, tokens at most `max`. */
  function Limited(shape: Shape, values: seq<string>, max: Option<nat>): Result<seq<string>, Refusal> {
    if shape.Text? && values == [] then Failure(NoReason)
    else if (shape.Text? && |values| > 1) || (shape.Token? && max.Some? && |values| > max.value) then Failure(TooMany)
    else Success(values)
  }

  function Read(shape: Shape, args: string, max: Option<nat>): Result<seq<string>, Refusal> {
    var values := ReadFrom(shape, args, SpaceEnd(args, 0));
    if values.None? then Failure(NotLiteral) else Limited(shape, values.value, max)
  }

  // ---- What is printed is read ----

  /** Where a literal ends does not depend on what stands around it. */
  lemma {:induction false} SameBody(quote: char, s: string, i: nat, t: string, j: nat, n: nat)
    requires i + n < |s| && j + n < |t| && s[i..i + n + 1] == t[j..j + n + 1]
    ensures BodyEnd(quote, s, i) == Some(i + n) <==> BodyEnd(quote, t, j) == Some(j + n)
    decreases n
  {
    assert s[i] == s[i..i + n + 1][0] && t[j] == t[j..j + n + 1][0];
    var skip := if s[i] == '\\' then 2 else 1;
    if s[i] != quote && skip <= n {
      assert s[i + skip..i + n + 1] == s[i..i + n + 1][skip..];
      assert t[j + skip..j + n + 1] == t[j..j + n + 1][skip..];
      SameBody(quote, s, i + skip, t, j + skip, n - skip);
    }
  }

  lemma {:induction false} SpaceEndsAt(s: string, i: nat, w: string)
    requires At(s, i, w) && AllSpace(w) && (i + |w| < |s| ==> !IsSpace(s[i + |w|]))
    ensures SpaceEnd(s, i) == i + |w|
    decreases |w|
  {
    AtSlice(s, i, w);
    if w != "" {
      SpaceEndsAt(s, i + 1, w[1..]);
    }
  }

  /** A literal with a comma may be followed by anything but space, one without by nothing. */
  ghost predicate Follows(l: Literal, s: string, end: nat) {
    end <= |s| && if l.comma then end < |s| ==> !IsSpace(s[end]) else end == |s|
  }

  lemma TailEndsAt(shape: Shape, l: Literal, s: string, i: nat)
    requires l.Valid(shape) && At(s, i, l.Tail()) && Follows(l, s, i + |l.Tail()|)
    ensures TailEnd(s, i) == Some(i + |l.Tail()|)
  {
    if l.comma {
      var a := i + |l.after|;
      AtConcat(s, i, l.after + ",", l.gap);
      AtConcat(s, i, l.after, ",");
      SpaceEndsAt(s, i, l.after);
      SpaceEndsAt(s, a + 1, l.gap);
    } else {
      SpaceEndsAt(s, i, l.after);
    }
  }

  lemma WrittenParts(l: Literal, s: string, i: nat)
    requires At(s, i, l.Written())
    ensures i + 1 + |l.value| < |s| && s[i] == s[i + 1 + |l.value|] == l.quote
    ensures s[i + 1..i + 1 + |l.value|] == l.value && At(s, i + 2 + |l.value|, l.Tail())
  {
    var q := [l.quote];
    AtConcat(s, i, q + l.value + q, l.Tail());
    AtConcat(s, i, q + l.value, q);
    AtConcat(s, i, q, l.value);
    AtSlice(s, i + 1, l.value);
  }

  /** A body's end, read where its text and closing quote stand. */
  lemma BodyEndsAt(quote: char, v: string, s: string, i: nat)
    requires i + |v| < |s| && s[i..i + |v|] == v && s[i + |v|] == quote
    ensures StandsIn(quote, v) <==> BodyEnd(quote, s, i) == Some(i + |v|)
  {
    var body := v + [quote];
    assert body[0..|v| + 1] == body == s[i..i + |v| + 1];
    SameBody(quote, s, i, body, 0, |v|);
  }

  lemma WrittenLength(l: Literal)
    ensures |l.Written()| == 2 + |l.value| + |l.Tail()|
  {
  }

  lemma WrittenIsRead(shape: Shape, l: Literal, s: string, i: nat)
    requires l.Valid(shape) && At(s, i, l.Written()) && Follows(l, s, i + |l.Written()|)
    ensures i < |s| && ReadOne(shape, s, i) == Some((i + 1 + |l.value|, i + |l.Written()|))
    ensures s[i + 1..i + 1 + |l.value|] == l.value && s[i] == l.quote
  {
    WrittenLength(l);
    WrittenParts(l, s, i);
    BodyEndsAt(l.quote, l.value, s, i + 1);
    assert BodyEnd(l.quote, s, i + 1) == Some(i + 1 + |l.value|);
    TailEndsAt(shape, l, s, i + 2 + |l.value|);
    OneFromParts(shape, s, i, i + 1 + |l.value|, i + |l.Written()|);
  }

  lemma OneFromParts(shape: Shape, s: string, i: nat, close: nat, end: nat)
    requires i < close < |s| && IsQuote(s[i]) && BodyEnd(s[i], s, i + 1) == Some(close)
    requires Readable(shape, s[i], s[i + 1..close]) && TailEnd(s, close + 1) == Some(end)
    ensures ReadOne(shape, s, i) == Some((close, end))
  {
    assert ReadOne(shape, s, i).Some?;
  }

  lemma PrintedHead(shape: Shape, ls: seq<Literal>)
    requires IsList(shape, ls) && ls != []
    ensures Print(ls) != "" && !IsSpace(Print(ls)[0])
  {
    assert Print(ls)[0] == ls[0].quote;
  }

  lemma {:induction false} PrintedIsRead(shape: Shape, ls: seq<Literal>, s: string, i: nat)
    requires IsList(shape, ls) && i <= |s| && s[i..] == Print(ls)
    ensures ReadFrom(shape, s, i) == Some(Values(ls))
    decreases |ls|
  {
    if ls != [] {
      if ls[1..] != [] {
        PrintedHead(shape, ls[1..]);
      }
      var n := FirstIsOne(shape, ls[0], Print(ls[1..]), s, i);
      PrintedIsRead(shape, ls[1..], s, n);
      ReadsOneMore(shape, s, i, i + 1 + |ls[0].value|, n, ls[0].value);
    }
  }

  /** A literal written at `i`, with `rest` after it. */
  lemma FirstIsOne(shape: Shape, l: Literal, rest: string, s: string, i: nat) returns (n: nat)
    requires l.Valid(shape) && i <= |s| && s[i..] == l.Written() + rest
    requires rest != "" ==> l.comma && !IsSpace(rest[0])
    ensures i < n <= |s| && s[n..] == rest
    ensures ReadOne(shape, s, i) == Some((i + 1 + |l.value|, n))
    ensures s[i + 1..i + 1 + |l.value|] == l.value
  {
    n := i + |l.Written()|;
    AtEnd(s, i, l.Written(), rest);
    FollowedBy(l, rest, s, n);
    WrittenIsRead(shape, l, s, i);
  }

  lemma FollowedBy(l: Literal, rest: string, s: string, n: nat)
    requires n <= |s| && s[n..] == rest && (rest != "" ==> l.comma && !IsSpace(rest[0]))
    ensures Follows(l, s, n)
  {
    if rest != "" {
      assert s[n..][0] == s[n];
    } else {
      assert |s[n..]| == 0;
    }
  }

  lemma AtEnd(s: string, i: nat, w: string, rest: string)
    requires i <= |s| && s[i..] == w + rest
    ensures At(s, i, w) && i + |w| <= |s| && s[i + |w|..] == rest
  {
    assert s[i..i + |w|] == s[i..][..|w|] && s[i + |w|..] == s[i..][|w|..];
    AtSlice(s, i, w);
  }

  // ---- What is read was printed ----

  /** The literal at `i`, as it is written there. */
  ghost function LiteralAt(shape: Shape, s: string, i: nat): Literal
    requires i < |s| && ReadOne(shape, s, i).Some?
  {
    var close := ReadOne(shape, s, i).value.0;
    var a := SpaceEnd(s, close + 1);
    if a == |s| then Literal(s[i], s[i + 1..close], s[close + 1..], false, "")
    else Literal(s[i], s[i + 1..close], s[close + 1..a], true, s[a + 1..SpaceEnd(s, a + 1)])
  }

  lemma ThreeParts(s: string, i: nat, a: nat, b: nat)
    requires i <= a < b <= |s|
    ensures s[i..b] == s[i..a] + [s[a]] + s[a + 1..b]
  {
  }

  lemma TailIsWritten(s: string, i: nat, l: Literal)
    requires i <= |s| && TailEnd(s, i).Some?
    requires var a := SpaceEnd(s, i);
             if a == |s| then l.after == s[i..] && !l.comma && l.gap == ""
             else l.after == s[i..a] && l.comma && l.gap == s[a + 1..SpaceEnd(s, a + 1)]
    ensures AllSpace(l.after) && AllSpace(l.gap) && l.Tail() == s[i..TailEnd(s, i).value]
    ensures TailEnd(s, i).value < |s| ==> l.comma
  {
    var a := SpaceEnd(s, i);
    SpaceUpTo(s, i);
    if a < |s| {
      SpaceUpTo(s, a + 1);
      var b := SpaceEnd(s, a + 1);
      ThreeParts(s, i, a, b);
    } else {
      assert s[i..] == s[i..a];
    }
  }

  lemma LiteralIsWritten(shape: Shape, s: string, i: nat)
    requires i < |s| && ReadOne(shape, s, i).Some?
    ensures var l := LiteralAt(shape, s, i);
            && l.Valid(shape) && l.Written() == s[i..ReadOne(shape, s, i).value.1]
            && (ReadOne(shape, s, i).value.1 < |s| ==> l.comma)
  {
    var (close, end) := ReadOne(shape, s, i).value;
    var l := LiteralAt(shape, s, i);
    BodyEndsAt(l.quote, l.value, s, i + 1);
    TailIsWritten(s, close + 1, l);
    SplitAtClose(s, i, close, end);
  }

  lemma SplitAtClose(s: string, i: nat, close: nat, end: nat)
    requires i < close < end <= |s|
    ensures s[i..end] == [s[i]] + s[i + 1..close] + [s[close]] + s[close + 1..end]
  {
  }

  ghost function Layout(shape: Shape, s: string, i: nat): seq<Literal>
    requires ReadFrom(shape, s, i).Some?
    decreases |s| - i
  {
    if i >= |s| then [] else [LiteralAt(shape, s, i)] + Layout(shape, s, ReadOne(shape, s, i).value.1)
  }

  lemma {:induction false} ReadIsPrinted(shape: Shape, s: string, i: nat)
    requires i <= |s| && ReadFrom(shape, s, i).Some?
    ensures var ls := Layout(shape, s, i);
            IsList(shape, ls) && s[i..] == Print(ls) && ReadFrom(shape, s, i) == Some(Values(ls))
    decreases |s| - i
  {
    if i < |s| {
      var (close, end) := ReadOne(shape, s, i).value;
      var l, rest := LiteralAt(shape, s, i), Layout(shape, s, end);
      LiteralIsWritten(shape, s, i);
      ReadsOneMore(shape, s, i, close, end, l.value);
      ReadIsPrinted(shape, s, end);
      LayoutInTwo(shape, l, rest, s, i, end);
    }
  }

  lemma LayoutInTwo(shape: Shape, l: Literal, rest: seq<Literal>, s: string, i: nat, end: nat)
    requires i <= end <= |s| && l.Written() == s[i..end] && Print(rest) == s[end..]
    requires l.Valid(shape) && IsList(shape, rest) && (end < |s| ==> l.comma)
    ensures IsList(shape, [l] + rest) && Print([l] + rest) == s[i..] && Values([l] + rest) == [l.value] + Values(rest)
  {
    assert ([l] + rest)[1..] == rest;
    assert s[i..] == s[i..end] + s[end..];
    if rest != [] {
      PrintedHead(shape, rest);
    }
  }

  /** `args` is white space and then `ls`, printed. */
  ghost predicate IsPrinted(shape: Shape, args: string, lead: string, ls: seq<Literal>) {
    AllSpace(lead) && IsList(shape, ls) && args == lead + Print(ls)
  }

  lemma PrintedIsAccepted(shape: Shape, args: string, max: Option<nat>, lead: string, ls: seq<Literal>)
    requires IsPrinted(shape, args, lead, ls)
    ensures Read(shape, args, max) == Limited(shape, Values(ls), max)
  {
    assert args[|lead|..] == Print(ls) && args[0..|lead|] == lead;
    if ls != [] {
      PrintedHead(shape, ls);
    }
    PrintedIsRead(shape, ls, args, |lead|);
    AtSlice(args, 0, lead);
    SpaceEndsAt(args, 0, lead);
  }

  lemma AcceptedWasPrinted(shape: Shape, args: string, max: Option<nat>)
    requires Read(shape, args, max).Success?
    ensures exists lead, ls :: IsPrinted(shape, args, lead, ls) && Values(ls) == Read(shape, args, max).value
  {
    var n := SpaceEnd(args, 0);
    SpaceUpTo(args, 0);
    assert args[0..n] == args[..n] && args == args[..n] + args[n..];
    ReadIsPrinted(shape, args, n);
    assert IsPrinted(shape, args, args[..n], Layout(shape, args, n));
  }

  /**
   The arguments are accepted as `values` exactly when they are some white
   space followed by a printed list of literals with those values, within the limit.
   */
  lemma {:induction false} AcceptedExactlyWhenPrinted(shape: Shape, args: string, max: Option<nat>, values: seq<string>)
    ensures Read(shape, args, max) == Success(values)
       <==> && Limited(shape, values, max) == Success(values)
            && exists lead, ls :: IsPrinted(shape, args, lead, ls) && Values(ls) == values
  {
    if Read(shape, args, max) == Success(values) {
      AcceptedWasPrinted(shape, args, max);
    }
    forall lead, ls | IsPrinted(shape, args, lead, ls) && Values(ls) == values
      ensures Read(shape, args, max) == Limited(shape, values, max)
    {
      PrintedIsAccepted(shape, args, max, lead, ls);
    }
  }

  /** Plain words always fit: a token's value needs no escape. */
  lemma {:induction false} TokensAreBodies(quote: char, v: string, i: nat)
    requires (quote == '\'' || quote == '"') && (forall k | 0 <= k < |v| :: IsTokenChar(v[k])) && i <= |v|
    ensures BodyEnd(quote, v + [quote], i) == Some(|v|)
    decreases |v| - i
  {
    if i < |v| {
      TokensAreBodies(quote, v, i + 1);
    }
  }

  // ---- The loops ----

  method SkipSpace(args: string, from: nat) returns (index: nat)
    requires from <= |args|
    ensures index == SpaceEnd(args, from)
  {
    index := from;
    while index < |args| && IsSpace(args[index])
      invariant from <= index <= |args| && SpaceEnd(args, from) == SpaceEnd(args, index)
    {
      index := index + 1;
    }
  }

  lemma SliceMore(s: string, from: nat, to: nat)
    requires from <= to < |s|
    ensures s[from..to] + [s[to]] == s[from..to + 1]
  {
  }

  /** The text up to the closing quote, escapes and all; none when there is no closing quote. */
  method ReadBody(args: string, from: nat, quote: char) returns (value: Option<string>)
    requires from <= |args|
    ensures value == if BodyEnd(quote, args, from).None? then None
                     else Some(args[from..BodyEnd(quote, args, from).value])
  {
    var index, v := from, "";
    while index < |args| && args[index] != quote
      invariant from <= index && BodyEnd(quote, args, from) == BodyEnd(quote, args, index)
      invariant index <= |args| ==> v == args[from..index]
      decreases |args| - index
    {
      SliceMore(args, from, index);
      v := v + [args[index]];
      if args[index] == '\\' {
        index := index + 1;
        if index < |args| {
          SliceMore(args, from, index);
          v := v + [args[index]];
        }
      }
      index := index + 1;
    }
    value := if index >= |args| then None else Some(v);
  }

  /** One turn of the reader: a literal, the space after it, and a comma with its space. */
  method ReadLiteral(args: string, shape: Shape, from: nat) returns (r: Option<(string, nat)>)
    requires from < |args|
    ensures r == var one := ReadOne(shape, args, from);
                 if one.None? then None else Some((args[from + 1..one.value.0], one.value.1))
  {
    var quote := args[from];
    if !IsQuote(quote) {
      return None;
    }
    var value := ReadBody(args, from + 1, quote);
    if value.None? || !Readable(shape, quote, value.value) {
      return None;
    }
    var stop := SkipSpace(args, from + |value.value| + 2);
    if stop < |args| {
      if args[stop] != ',' {
        return None;
      }
      stop := SkipSpace(args, stop + 1);
    }
    r := Some((value.value, stop));
  }

  method LiteralsOf(args: string, shape: Shape, max: Option<nat>) returns (r: Result<seq<string>, Refusal>)
    ensures r == Read(shape, args, max)
  {
    var values: seq<string> := [];
    var index := SkipSpace(args, 0);
    ghost var whole := ReadFrom(shape, args, index);
    assert whole.Some? ==> values + whole.value == whole.value;
    while index < |args|
      invariant index <= |args| && whole == ReadFrom(shape, args, SpaceEnd(args, 0))
      invariant whole == Before(values, ReadFrom(shape, args, index))
    {
      var one := ReadLiteral(args, shape, index);
      if one.None? {
        return Failure(NotLiteral);
      }
      ReadsOneMore(shape, args, index, ReadOne(shape, args, index).value.0, one.value.1, one.value.0);
      BeforeTwo(values, one.value.0, ReadFrom(shape, args, one.value.1));
      values := values + [one.value.0];
      index := one.value.1;
    }
    assert values + [] == values;
    r := Limited(shape, values, max);
  }

  lemma BeforeTwo(values: seq<string>, v: string, rest: Option<seq<string>>)
    ensures Before(values, Before([v], rest)) == Before(values + [v], rest)
  {
    assert rest.Some? ==> values + ([v] + rest.value) == values + [v] + rest.value;
  }
}
