/**
 The route scanner's comment blanker: an index loop with jumps, against a lexer
 that reads one character at a time. A character here stands for one UTF-16
 code unit of the scanned text.
 */
module Comments {
  import opened Wrappers
  import Quoting

  /** Where the lexer is. `BlockStar` and `BlockSlash` are on the second and the last character of a block comment. */
  datatype Mode = Code | Str(quote: char) | Escaped(quote: char) | Line | BlockStar | Block | BlockSlash
  {
    predicate InComment() {
      Line? || BlockStar? || Block? || BlockSlash?
    }
  }

  predicate IsQuote(c: char) {
    c == '\'' || c == '"' || c == '`'
  }

  function Peek(t: string): Option<char> {
    if t == "" then None else Some(t[0])
  }

  /** The mode after reading `c`, with `d` the character that follows it. */
  function Next(m: Mode, c: char, d: Option<char>): Mode {
    match m
    case Code =>
      if IsQuote(c) then Str(c)
      else if c == '/' && d == Some('/') then Line
      else if c == '/' && d == Some('*') then BlockStar
      else Code
    case Str(q) => if c == '\\' then Escaped(q) else if c == q then Code else m
    case Escaped(q) => Str(q)
    case Line => if c == '\n' then Code else Line
    case BlockStar => Block
    case Block => if c == '*' && d == Some('/') then BlockSlash else Block
    case BlockSlash => Code
  }

  /** What is left of `c`: itself, nothing in a line comment, a blank in a block comment. Newlines stay. */
  function Left(m: Mode, c: char, d: Option<char>): string {
    if c == '\n' then "\n"
    else if m.Line? || Next(m, c, d).Line? then ""
    else if m.InComment() || Next(m, c, d).InComment() then " "
    else [c]
  }

  /** The text without its comments, read in mode `m`; a line comment the text ends in leaves a newline. */
  function Blanked(m: Mode, t: string): string
    decreases |t|
  {
    if t == "" then (if m.Line? then "\n" else "")
    else Left(m, t[0], Peek(t[1..])) + Blanked(Next(m, t[0], Peek(t[1..])), t[1..])
  }

  // ---- The output has no comment, and a text without comments is left alone ----

  /** Reading `t` from mode `m` never enters a comment. */
  ghost predicate Clean(m: Mode, t: string)
    decreases |t|
  {
    !m.InComment() && (t == "" || Clean(Next(m, t[0], Peek(t[1..])), t[1..]))
  }

  lemma {:induction false} CleanStays(m: Mode, t: string)
    requires Clean(m, t)
    ensures Blanked(m, t) == t
    decreases |t|
  {
    if t != "" {
      CleanStays(Next(m, t[0], Peek(t[1..])), t[1..]);
    }
  }

  lemma {:induction false} LineLeavesNewline(t: string)
    ensures Blanked(Line, t) != "" && Blanked(Line, t)[0] == '\n'
  {
    if t != "" {
      LineLeavesNewline(t[1..]);
    }
  }

  /** Blanking code never brings forward a character that could open a comment. */
  lemma {:induction false} NoNewOpening(t: string, c: char)
    requires Peek(Blanked(Code, t)) == Some(c) && (c == '/' || c == '*')
    ensures Peek(t) == Some(c)
  {
    if t != "" && t[0] == '/' && Peek(t[1..]) == Some('/') {
      LineLeavesNewline(t[1..]);
    }
  }

  /** The mode in which what is left of a text read in mode `m` is read again. */
  function Again(m: Mode): Mode {
    if m.InComment() then Code else m
  }

  lemma {:induction false} BlankedIsClean(m: Mode, t: string)
    ensures Clean(Again(m), Blanked(m, t))
    decreases |t|
  {
    if t == "" {
      assert m.Line? ==> Blanked(m, t)[1..] == "";
    } else {
      var m' := Next(m, t[0], Peek(t[1..]));
      var left, rest := Left(m, t[0], Peek(t[1..])), Blanked(m', t[1..]);
      BlankedIsClean(m', t[1..]);
      assert left != "" ==> (left + rest)[1..] == rest;
      if left == "" {
        assert left + rest == rest && Again(m) == Again(m');
      } else {
        assert (left + rest)[0] == left[0];
        if m.Code? && t[0] == '/' && Peek(rest).Some? && (rest[0] == '/' || rest[0] == '*') && m'.Code? {
          NoNewOpening(t[1..], rest[0]);
        }
        assert Next(Again(m), left[0], Peek(rest)) == Again(m');
      }
    }
  }

  // ---- Line by line ----

  function Lines(t: string): (ls: seq<string>)
    ensures |ls| > 0
  {
    if t == "" then [""]
    else
      var rest := Lines(t[1..]);
      if t[0] == '\n' then [""] + rest else [[t[0]] + rest[0]] + rest[1..]
  }

  /** One line, without its newline, read in mode `m`. */
  function OnLine(m: Mode, l: string): string
    decreases |l|
  {
    if l == "" then "" else Left(m, l[0], Peek(l[1..])) + OnLine(Next(m, l[0], Peek(l[1..])), l[1..])
  }

  /** The mode after a line. */
  function After(m: Mode, l: string): Mode
    decreases |l|
  {
    if l == "" then m else After(Next(m, l[0], Peek(l[1..])), l[1..])
  }

  /** Every line by itself, each read in the mode its predecessors and the newline before it leave. */
  function EachLine(m: Mode, ls: seq<string>): seq<string>
    decreases |ls|
  {
    if ls == [] then [] else [OnLine(m, ls[0])] + EachLine(Next(After(m, ls[0]), '\n', None), ls[1..])
  }

  function EndsIn(m: Mode, ls: seq<string>): Mode
    requires ls != []
    decreases |ls|
  {
    if |ls| == 1 then After(m, ls[0]) else EndsIn(Next(After(m, ls[0]), '\n', None), ls[1..])
  }

  lemma LinesOfPrefix(left: string, rest: string)
    requires |left| <= 1 && (left != "" ==> left[0] != '\n')
    ensures Lines(left + rest) == [left + Lines(rest)[0]] + Lines(rest)[1..]
  {
    if left == "" {
      assert left + rest == rest;
      assert "" + Lines(rest)[0] == Lines(rest)[0];
      assert Lines(rest) == [Lines(rest)[0]] + Lines(rest)[1..];
    } else {
      assert (left + rest)[1..] == rest && [left[0]] == left;
    }
  }

  /** `rest` of the text blanked line by line gives the same with a character other than a newline put before it. */
  lemma ByLineCons(m: Mode, t: string)
    requires t != "" && t[0] != '\n'
    ensures var m' := Next(m, t[0], Peek(t[1..]));
            && EachLine(m, Lines(t)) == [Left(m, t[0], Peek(t[1..])) + OnLine(m', Lines(t[1..])[0])]
                                        + EachLine(m', Lines(t[1..]))[1..]
            && EndsIn(m, Lines(t)) == EndsIn(m', Lines(t[1..]))
  {
    var c, d, rest := t[0], Peek(t[1..]), Lines(t[1..]);
    var l := [c] + rest[0];
    assert Lines(t) == [l] + rest[1..];
    assert l[1..] == rest[0] && Lines(t)[1..] == rest[1..];
    PeekOnLine(t[1..]);
    assert Next(m, c, d) == Next(m, c, Peek(rest[0])) && Left(m, c, d) == Left(m, c, Peek(rest[0]));
  }

  lemma ByLineNewline(m: Mode, t: string)
    requires t != "" && t[0] == '\n'
    ensures var m' := Next(m, t[0], Peek(t[1..]));
            && Lines(Blanked(m, t)) == [""] + Lines(Blanked(m', t[1..]))
            && EachLine(m, Lines(t)) == [""] + EachLine(m', Lines(t[1..]))
            && EndsIn(m, Lines(t)) == EndsIn(m', Lines(t[1..]))
  {
    var m' := Next(m, t[0], Peek(t[1..]));
    assert Blanked(m, t)[1..] == Blanked(m', t[1..]) && Lines(t)[1..] == Lines(t[1..]);
    assert m' == Next(After(m, ""), '\n', None);
  }

  ghost function LastLine(m: Mode): seq<string> {
    if m.Line? then [""] else []
  }

  lemma BlankedOther(m: Mode, t: string)
    requires t != "" && t[0] != '\n'
    requires var m' := Next(m, t[0], Peek(t[1..]));
             Lines(Blanked(m', t[1..])) == EachLine(m', Lines(t[1..])) + LastLine(EndsIn(m', Lines(t[1..])))
    ensures Lines(Blanked(m, t)) == EachLine(m, Lines(t)) + LastLine(EndsIn(m, Lines(t)))
  {
    var m', u := Next(m, t[0], Peek(t[1..])), t[1..];
    var left := Left(m, t[0], Peek(u));
    ByLineCons(m, t);
    LinesOfPrefix(left, Blanked(m', u));
    JoinsFirst(left, EachLine(m', Lines(u)), LastLine(EndsIn(m', Lines(u))));
  }

  lemma JoinsFirst(left: string, lines: seq<string>, last: seq<string>)
    requires lines != []
    ensures [left + (lines + last)[0]] + (lines + last)[1..] == [left + lines[0]] + lines[1..] + last
  {
  }

  lemma EndByLine(m: Mode)
    ensures Lines(Blanked(m, "")) == EachLine(m, Lines("")) + LastLine(EndsIn(m, Lines("")))
  {
    assert Lines("\n") == [""] + Lines("\n"[1..]);
    assert EachLine(m, [""]) == [OnLine(m, "")] + EachLine(Next(After(m, ""), '\n', None), [""][1..]);
  }

  lemma {:induction false} BlankedByLine(m: Mode, t: string)
    ensures Lines(Blanked(m, t)) == EachLine(m, Lines(t)) + LastLine(EndsIn(m, Lines(t)))
    decreases |t|
  {
    if t == "" {
      EndByLine(m);
    } else {
      var m', u := Next(m, t[0], Peek(t[1..])), t[1..];
      BlankedByLine(m', u);
      if t[0] == '\n' {
        ByLineNewline(m, t);
      } else {
        BlankedOther(m, t);
      }
    }
  }

  /** Looking ahead on the line sees the same character, or an end that opens and closes nothing. */
  lemma PeekOnLine(t: string)
    ensures Peek(Lines(t)[0]) == if Peek(t) == Some('\n') then None else Peek(t)
  {
  }

  /**
   The output is a fixed point, holds no comment, and is the text line by line:
   as many lines, but for one more when the text ends inside a line comment.
   */
  lemma {:induction false} CommentsAreBlanked(text: string)
    ensures var out := Blanked(Code, text);
            && Blanked(Code, out) == out
            && Clean(Code, out)
            && |Lines(out)| == |Lines(text)| + (if EndsIn(Code, Lines(text)).Line? then 1 else 0)
            && EachLine(Code, Lines(text)) <= Lines(out)
  {
    BlankedIsClean(Code, text);
    CleanStays(Code, Blanked(Code, text));
    BlankedByLine(Code, text);
    EachLineKeepsCount(Code, Lines(text));
  }

  lemma {:induction false} EachLineKeepsCount(m: Mode, ls: seq<string>)
    ensures |EachLine(m, ls)| == |ls|
    decreases |ls|
  {
    if ls != [] {
      EachLineKeepsCount(Next(After(m, ls[0]), '\n', None), ls[1..]);
    }
  }

  /** How much of `t` a string literal read in mode `m` still takes. */
  function LiteralLength(m: Mode, t: string): (n: nat)
    requires m.Str? || m.Escaped?
    ensures n <= |t|
    decreases |t|
  {
    if t == "" then 0
    else if Next(m, t[0], None).Code? then 1
    else 1 + LiteralLength(Next(m, t[0], None), t[1..])
  }

  /** A string literal comes out verbatim, and code goes on after it; one that never ends takes the rest. */
  lemma {:induction false} LiteralsStayVerbatim(m: Mode, t: string)
    requires m.Str? || m.Escaped?
    ensures var n := LiteralLength(m, t);
            Blanked(m, t) == t[..n] + Blanked(Code, t[n..])
    decreases |t|
  {
    if t != "" {
      var m', u := Next(m, t[0], None), t[1..];
      assert Next(m, t[0], Peek(u)) == m' && Left(m, t[0], Peek(u)) == [t[0]];
      assert Blanked(m, t) == [t[0]] + Blanked(m', u);
      if m'.Code? {
        assert t[..1] == [t[0]];
      } else {
        LiteralsStayVerbatim(m', u);
        ConsSlices(t, LiteralLength(m', u));
        ConcatIsAssociative([t[0]], u[..LiteralLength(m', u)], Blanked(Code, u[LiteralLength(m', u)..]));
      }
    }
  }

  lemma ConsSlices(t: string, n: nat)
    requires n < |t|
    ensures t[..n + 1] == [t[0]] + t[1..][..n] && t[n + 1..] == t[1..][n..]
  {
  }

  lemma ConcatIsAssociative(a: string, b: string, c: string)
    ensures (a + b) + c == a + (b + c)
  {
  }

  // ---- What a source text is made of ----

  /** A character of code, a literal, a comment to the end of its line, or a block comment. */
  datatype Piece =
    | Plain(c: char)
    | Quoted(quote: char, body: string)
    | LineComment(body: string)
    | BlockComment(body: string)
  {
    predicate Valid() {
      match this
      case Plain(c) => !Quoting.IsMark(c)
      case Quoted(quote, body) => Quoting.IsMark(quote) && Quoting.IsBody(quote, body)
      case LineComment(body) => '\n' !in body
      case BlockComment(body) => forall k | 0 <= k < |body| - 1 :: !(body[k] == '*' && body[k + 1] == '/')
    }

    function Written(): string {
      match this
      case Plain(c) => [c]
      case Quoted(quote, body) => [quote] + (body + [quote])
      case LineComment(body) => "//" + (body + "\n")
      case BlockComment(body) => "/*" + body + "*/"
    }

    /** What the blanker leaves of it. */
    function Kept(): string {
      match this
      case LineComment(_) => "\n"
      case BlockComment(_) =>
        seq(|Written()|, i requires 0 <= i < |Written()| => if Written()[i] == '\n' then '\n' else ' ')
      case _ => Written()
    }
  }

  function WrittenOf(ps: seq<Piece>): string {
    if ps == [] then "" else ps[0].Written() + WrittenOf(ps[1..])
  }

  function KeptOf(ps: seq<Piece>): string {
    if ps == [] then "" else ps[0].Kept() + KeptOf(ps[1..])
  }

  /** Valid pieces, of which no slash of code and what follows it make the opening of a comment. */
  predicate AreApart(ps: seq<Piece>) {
    ps == [] ||
    (&& ps[0].Valid() && AreApart(ps[1..])
     && (ps[0] == Plain('/') ==> Peek(WrittenOf(ps[1..])) != Some('/') && Peek(WrittenOf(ps[1..])) != Some('*')))
  }

  lemma {:induction false} LiteralEndsAt(quote: char, body: string, t: string)
    requires Quoting.IsBody(quote, body) && quote != '\\'
    requires |body| < |t| && t[..|body|] == body && t[|body|] == quote
    ensures LiteralLength(Str(quote), t) == |body| + 1
    decreases |body|
  {
    if body != "" {
      var n := if body[0] == '\\' then 2 else 1;
      assert t[0] == t[..|body|][0] == body[0];
      assert t[n..][..|body| - n] == t[..|body|][n..];
      LiteralEndsAt(quote, body[n..], t[n..]);
      if n == 2 {
        assert t[1..][1..] == t[2..];
        assert LiteralLength(Escaped(quote), t[1..]) == 1 + LiteralLength(Str(quote), t[2..]);
      }
    }
  }

  lemma QuotedStays(quote: char, body: string, rest: string)
    requires Quoting.IsMark(quote) && Quoting.IsBody(quote, body)
    ensures Blanked(Code, [quote] + (body + [quote]) + rest) == [quote] + (body + [quote]) + Blanked(Code, rest)
  {
    var w := body + [quote];
    var t, u := [quote] + w + rest, w + rest;
    assert t[1..] == u && u[..|body|] == body && u[|body|] == quote;
    LiteralEndsAt(quote, body, u);
    LiteralsStayVerbatim(Str(quote), u);
    assert u[..|w|] == w && u[|w|..] == rest;
    assert Blanked(Code, t) == [quote] + Blanked(Str(quote), u);
    ConcatIsAssociative([quote], w, Blanked(Code, rest));
  }

  lemma {:induction false} LineGoes(body: string, rest: string)
    requires '\n' !in body
    ensures Blanked(Line, body + "\n" + rest) == "\n" + Blanked(Code, rest)
  {
    var t := body + "\n" + rest;
    if body == "" {
      assert t[1..] == rest;
    } else {
      assert t[1..] == body[1..] + "\n" + rest && t[0] == body[0];
      LineGoes(body[1..], rest);
      assert "" + Blanked(Line, t[1..]) == Blanked(Line, t[1..]);
    }
  }

  lemma PlainStays(c: char, rest: string)
    requires !Quoting.IsMark(c) && (c == '/' ==> Peek(rest) != Some('/') && Peek(rest) != Some('*'))
    ensures Blanked(Code, [c] + rest) == [c] + Blanked(Code, rest)
  {
    assert ([c] + rest)[1..] == rest;
  }

  lemma LineCommentGoes(body: string, rest: string)
    requires '\n' !in body
    ensures Blanked(Code, "//" + (body + "\n") + rest) == "\n" + Blanked(Code, rest)
  {
    var t := "//" + (body + "\n") + rest;
    assert t[1..] == "/" + (body + "\n" + rest) && t[1..][1..] == body + "\n" + rest;
    LineGoes(body, rest);
    assert Blanked(Code, t) == "" + Blanked(Line, t[1..]);
    assert Blanked(Line, t[1..]) == "" + Blanked(Line, t[1..][1..]);
  }

  lemma {:induction false} AllBlankIs(s: string)
    ensures AllBlank(s) == seq(|s|, i requires 0 <= i < |s| => if s[i] == '\n' then '\n' else ' ')
  {
    if s != "" {
      AllBlankIs(s[1..]);
    }
  }

  lemma BlockGoes(p: Piece, rest: string)
    requires p.BlockComment? && p.Valid()
    ensures Blanked(Code, p.Written() + rest) == p.Kept() + Blanked(Code, rest)
  {
    var w := p.Written();
    var t, n := w + rest, |w|;
    assert t[..n] == w && t[n..] == rest;
    forall k | 2 <= k < n - 2
      ensures !ClosesAt(t, k)
    {
      assert t[k] == p.body[k - 2];
      assert k + 1 < n - 2 ==> t[k + 1] == p.body[k - 1];
      assert k + 1 == n - 2 ==> t[k + 1] == '*';
    }
    assert t[n - 2] == '*' && t[n - 1] == '/';
    BlockCommentIsBlanked(t, n);
    AllBlankIs(w);
  }

  /**
   Of any text made of code, literals in any of the three quotes, and comments of both kinds,
   the blanker keeps the code and the literals as they are, keeps the newlines, and blanks the rest.
   */
  lemma {:induction false} PiecesAreBlanked(ps: seq<Piece>)
    requires AreApart(ps)
    ensures Blanked(Code, WrittenOf(ps)) == KeptOf(ps)
  {
    if ps != [] {
      PiecesAreBlanked(ps[1..]);
      PieceIsBlanked(ps[0], WrittenOf(ps[1..]));
    }
  }

  lemma PieceIsBlanked(p: Piece, rest: string)
    requires p.Valid()
    requires p == Plain('/') ==> Peek(rest) != Some('/') && Peek(rest) != Some('*')
    ensures Blanked(Code, p.Written() + rest) == p.Kept() + Blanked(Code, rest)
  {
    match p
    case Plain(c) => PlainStays(c, rest);
    case Quoted(quote, body) => QuotedStays(quote, body, rest);
    case LineComment(body) => LineCommentGoes(body, rest);
    case BlockComment(_) => BlockGoes(p, rest);
  }

  // ---- The loop ----

  /** `s` with everything but its newlines blanked. */
  function AllBlank(s: string): string {
    if s == "" then "" else [BlankOf(s[0])] + AllBlank(s[1..])
  }

  predicate ClosesAt(t: string, k: nat) {
    k + 1 < |t| && t[k] == '*' && t[k + 1] == '/'
  }

  function BlankOf(c: char): char {
    if c == '\n' then c else ' '
  }

  lemma AllBlankCons(t: string, n: nat)
    requires 0 < n <= |t|
    ensures AllBlank(t[..n]) == [BlankOf(t[0])] + AllBlank(t[1..][..n - 1])
  {
    assert t[..n][1..] == t[1..][..n - 1];
  }

  /** No comment end of `t` lies in `from..to`. */
  ghost predicate Open(t: string, from: nat, to: nat) {
    forall j | from <= j < to :: !ClosesAt(t, j)
  }

  /** Inside a block comment that ends before `n`: at its first end, or with the text when it has none. */
  lemma {:induction false} BlockIsBlanked(t: string, n: nat)
    requires n <= |t|
    requires (2 <= n && ClosesAt(t, n - 2) && Open(t, 0, n - 2)) || (n == |t| && Open(t, 0, |t|))
    ensures Blanked(Block, t) == AllBlank(t[..n]) + Blanked(Code, t[n..])
    decreases |t|
  {
    if t != "" {
      var u := t[1..];
      assert forall j | 0 <= j :: ClosesAt(u, j) <==> ClosesAt(t, j + 1);
      AllBlankCons(t, n);
      ConsSlices(t, n - 1);
      if n >= 2 && ClosesAt(t, 0) {
        assert n == 2;
        AllBlankCons(u, 1);
        assert Blanked(Block, t) == [BlankOf(t[0])] + Blanked(BlockSlash, u);
        assert Blanked(BlockSlash, u) == [BlankOf(u[0])] + Blanked(Code, u[1..]);
        assert AllBlank(u[1..][..0]) == "";
      } else {
        BlockIsBlanked(u, n - 1);
        assert Blanked(Block, t) == [BlankOf(t[0])] + Blanked(Block, u);
      }
      ConcatIsAssociative([BlankOf(t[0])], AllBlank(u[..n - 1]), Blanked(Code, t[n..]));
    }
  }

  lemma BodyIsBlanked(t: string, n: nat)
    requires 2 <= n <= |t|
    requires (4 <= n && ClosesAt(t, n - 2) && Open(t, 2, n - 2)) || (n == |t| && Open(t, 2, |t|))
    ensures var v := t[1..][1..];
            Blanked(Block, v) == AllBlank(v[..n - 2]) + Blanked(Code, t[n..])
  {
    var v := t[1..][1..];
    assert forall j | 0 <= j :: ClosesAt(v, j) <==> ClosesAt(t, j + 2);
    BlockIsBlanked(v, n - 2);
    assert t[n..] == v[n - 2..];
  }

  lemma {:induction false} BlockCommentIsBlanked(t: string, n: nat)
    requires 2 <= n <= |t| && t[0] == '/' && t[1] == '*'
    requires (4 <= n && ClosesAt(t, n - 2) && Open(t, 2, n - 2)) || (n == |t| && Open(t, 2, |t|))
    ensures Blanked(Code, t) == AllBlank(t[..n]) + Blanked(Code, t[n..])
  {
    var u, v := t[1..], t[1..][1..];
    BodyIsBlanked(t, n);
    AllBlankCons(t, n);
    AllBlankCons(u, n - 1);
    assert Blanked(BlockStar, u) == [BlankOf(u[0])] + Blanked(Block, v);
    assert Blanked(Code, t) == [BlankOf(t[0])] + Blanked(BlockStar, u);
    ConcatIsAssociative([BlankOf(u[0])], AllBlank(v[..n - 2]), Blanked(Code, t[n..]));
    ConcatIsAssociative([BlankOf(t[0])], AllBlank(u[..n - 1]), Blanked(Code, t[n..]));
  }

  method IndexOfClose(text: string, from: nat) returns (k: Option<nat>)
    ensures k.Some? ==>
              && from <= k.value && ClosesAt(text, k.value)
              && forall j | from <= j < k.value :: !ClosesAt(text, j)
    ensures k.None? ==> forall j | from <= j :: !ClosesAt(text, j)
  {
    var i := from;
    while i + 1 < |text|
      invariant from <= i
      invariant forall j | from <= j < i :: !ClosesAt(text, j)
      decreases |text| - i
    {
      if text[i] == '*' && text[i + 1] == '/' {
        return Some(i);
      }
      i := i + 1;
    }
    k := None;
  }

  ghost function ModeOf(quote: Option<char>): Mode {
    if quote.Some? then Str(quote.value) else Code
  }

  /** What is still to be read; the index may be one past the end. */
  function Rest(text: string, index: nat): string {
    if index <= |text| then text[index..] else ""
  }

  /** `out` is what is left of the text before `index`, where the lexer is in mode `m`. */
  ghost predicate Done(out: string, m: Mode, text: string, index: nat) {
    out + Blanked(m, Rest(text, index)) == Blanked(Code, text)
  }

  lemma ReadOne(out: string, m: Mode, text: string, index: nat)
    requires index < |text| && Done(out, m, text, index)
    ensures var d := Peek(text[index + 1..]);
            Done(out + Left(m, text[index], d), Next(m, text[index], d), text, index + 1)
  {
    var t, u := text[index..], text[index + 1..];
    assert t[1..] == u;
    ConcatIsAssociative(out, Left(m, t[0], Peek(u)), Blanked(Next(m, t[0], Peek(u)), u));
  }

  lemma ReadQuoted(out: string, q: char, text: string, index: nat)
    requires index < |text| && Done(out, Str(q), text, index)
    ensures var c := text[index];
            Done(out + [c], if c == '\\' then Escaped(q) else if c == q then Code else Str(q), text, index + 1)
  {
    ReadOne(out, Str(q), text, index);
  }

  /** Past a backslash: the character after it, if there is one. */
  lemma ReadEscaped(out: string, q: char, text: string, index: nat)
    requires Done(out, Escaped(q), text, index)
    ensures Done(if index < |text| then out + [text[index]] else out, Str(q), text, index + 1)
  {
    if index < |text| {
      ReadOne(out, Escaped(q), text, index);
    }
  }

  predicate OpensComment(text: string, index: nat) {
    index + 1 < |text| && text[index] == '/' && (text[index + 1] == '/' || text[index + 1] == '*')
  }

  lemma ReadCode(out: string, text: string, index: nat)
    requires index < |text| && !OpensComment(text, index) && Done(out, Code, text, index)
    ensures var c := text[index];
            Done(out + [c], if IsQuote(c) then Str(c) else Code, text, index + 1)
  {
    ReadOne(out, Code, text, index);
  }

  lemma ReadToLine(out: string, text: string, index: nat)
    requires index + 1 < |text| && text[index] == '/' && text[index + 1] == '/' && Done(out, Code, text, index)
    ensures Done(out, Line, text, index)
  {
    var t := text[index..];
    assert t[1..] == text[index + 1..];
    assert Blanked(Code, t) == Blanked(Line, t[1..]) == Blanked(Line, t);
  }

  lemma ReadInLine(out: string, text: string, index: nat)
    requires index < |text| && text[index] != '\n' && Done(out, Line, text, index)
    ensures Done(out, Line, text, index + 1)
  {
    ReadOne(out, Line, text, index);
    assert out + "" == out;
  }

  lemma ReadLineEnd(out: string, text: string, index: nat)
    requires index <= |text| && (index < |text| ==> text[index] == '\n') && Done(out, Line, text, index)
    ensures Done(out + "\n", Code, text, index + 1)
  {
    if index < |text| {
      ReadOne(out, Line, text, index);
    } else {
      assert out + "\n" + "" == out + "\n";
    }
  }

  /** Past a line comment: from its slashes to the end of its line. */
  lemma ReadLine(out: string, text: string, index: nat, end: nat)
    requires index + 1 < |text| && text[index] == '/' && text[index + 1] == '/' && Done(out, Code, text, index)
    requires index <= end <= |text| && (end < |text| ==> text[end] == '\n') && NoNewline(text, index, end)
    ensures Done(out + "\n", Code, text, end + 1)
  {
    ReadToLine(out, text, index);
    ReadAlong(out, text, index, end);
    ReadLineEnd(out, text, end);
  }

  predicate NoNewline(text: string, from: nat, to: nat)
    requires to <= |text|
  {
    forall j | from <= j < to :: text[j] != '\n'
  }

  lemma {:induction false} ReadAlong(out: string, text: string, index: nat, end: nat)
    requires index <= end <= |text| && NoNewline(text, index, end) && Done(out, Line, text, index)
    ensures Done(out, Line, text, end)
    decreases end - index
  {
    if index < end {
      ReadInLine(out, text, index);
      ReadAlong(out, text, index + 1, end);
    }
  }

  method EndOfLine(text: string, from: nat) returns (end: nat)
    requires from <= |text|
    ensures from <= end <= |text| && (end < |text| ==> text[end] == '\n') && NoNewline(text, from, end)
  {
    end := from;
    while end < |text| && text[end] != '\n'
      invariant from <= end <= |text| && NoNewline(text, from, end)
    {
      end := end + 1;
    }
  }

  lemma ReadBlock(out: string, text: string, index: nat, stop: nat)
    requires index + 1 < |text| && text[index] == '/' && text[index + 1] == '*' && Done(out, Code, text, index)
    requires || (index + 4 <= stop <= |text| && ClosesAt(text, stop - 2) && Open(text, index + 2, stop - 2))
             || (stop == |text| && Open(text, index + 2, |text|))
    ensures Done(out + AllBlank(text[index..stop]), Code, text, stop)
  {
    var t, n := text[index..], stop - index;
    assert forall j | 0 <= j :: ClosesAt(t, j) <==> ClosesAt(text, j + index);
    BlockCommentIsBlanked(t, n);
    assert t[..n] == text[index..stop] && t[n..] == text[stop..];
    ConcatIsAssociative(out, AllBlank(text[index..stop]), Blanked(Code, text[stop..]));
  }

  lemma ReadAll(out: string, m: Mode, text: string, index: nat)
    requires |text| <= index && Done(out, m, text, index) && !m.Line?
    ensures out == Blanked(Code, text)
  {
    assert Rest(text, index) == "";
  }

  /** What one turn of the scanner adds, where it goes on, and in which quotes. */
  ghost predicate Turn(text: string, index: nat, quote: Option<char>, more: string, next: nat, quote': Option<char>)
    requires index < |text|
  {
    var c := text[index];
    if quote.Some? then
      if c == '\\' then
        && quote' == quote && next == index + 2
        && more == [c] + (if index + 1 < |text| then [text[index + 1]] else "")
      else next == index + 1 && more == [c] && quote' == if c == quote.value then None else quote
    else if !OpensComment(text, index) then
      next == index + 1 && more == [c] && quote' == if IsQuote(c) then Some(c) else None
    else if text[index + 1] == '/' then
      && quote' == None && more == "\n" && index < next <= |text| + 1
      && (next <= |text| ==> text[next - 1] == '\n') && NoNewline(text, index, next - 1)
    else
      && quote' == None && index < next <= |text| && more == AllBlank(text[index..next])
      && (|| (index + 4 <= next && ClosesAt(text, next - 2) && Open(text, index + 2, next - 2))
          || (next == |text| && Open(text, index + 2, |text|)))
  }

  lemma TurnIsRead(text: string, out: string, index: nat, quote: Option<char>, more: string, next: nat,
                   quote': Option<char>)
    requires index < |text| && Turn(text, index, quote, more, next, quote') && Done(out, ModeOf(quote), text, index)
    ensures Done(out + more, ModeOf(quote'), text, next)
  {
    var c := text[index];
    if quote.Some? {
      TurnInQuotes(text, out, index, quote.value, more, next, quote');
    } else if !OpensComment(text, index) {
      ReadCode(out, text, index);
    } else if text[index + 1] == '/' {
      ReadLine(out, text, index, next - 1);
    } else {
      ReadBlock(out, text, index, next);
    }
  }

  lemma TurnInQuotes(text: string, out: string, index: nat, q: char, more: string, next: nat, quote': Option<char>)
    requires index < |text| && Turn(text, index, Some(q), more, next, quote') && Done(out, Str(q), text, index)
    ensures Done(out + more, ModeOf(quote'), text, next)
  {
    var c := text[index];
    ReadQuoted(out, q, text, index);
    if c == '\\' {
      ReadEscaped(out + [c], q, text, index + 1);
      assert out + [c] + more[1..] == out + more;
    }
  }

  method WithoutComments(text: string) returns (out: string)
    ensures out == Blanked(Code, text)
  {
    out := "";
    var quote: Option<char> := None;
    var index: nat := 0;
    assert Done(out, Code, text, index) by {
      assert Rest(text, 0) == text && "" + Blanked(Code, text) == Blanked(Code, text);
    }
    while index < |text|
      invariant Done(out, ModeOf(quote), text, index)
      decreases |text| - index
    {
      ghost var out0, index0, quote0 := out, index, quote;
      out, index, quote := OneTurn(text, out, index, quote);
      TurnIsRead(text, out0, index0, quote0, out[|out0|..], index, quote);
      assert out == out0 + out[|out0|..];
    }
    ReadAll(out, ModeOf(quote), text, index);
  }

  method OneTurn(text: string, out0: string, index0: nat, quote0: Option<char>)
    returns (out: string, index: nat, quote: Option<char>)
    requires index0 < |text|
    ensures out0 <= out && index0 < index
    ensures Turn(text, index0, quote0, out[|out0|..], index, quote)
  {
    out, index, quote := out0, index0, quote0;
    var c := text[index];
    if quote.Some? {
      out := out + [c];
      if c == '\\' {
        index := index + 1;
        out := if index < |text| then out + [text[index]] else out;
      } else if c == quote.value {
        quote := None;
      }
    } else if IsQuote(c) {
      quote := Some(c);
      out := out + [c];
    } else if c == '/' && index + 1 < |text| && text[index + 1] == '/' {
      index := EndOfLine(text, index);
      out := out + "\n";
    } else if c == '/' && index + 1 < |text| && text[index + 1] == '*' {
      var end := IndexOfClose(text, index + 2);
      var stop := if end.Some? then end.value + 2 else |text|;
      out := out + AllBlank(text[index..stop]);
      index := stop - 1;
    } else {
      out := out + [c];
    }
    index := index + 1;
  }
}
