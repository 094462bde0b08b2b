/** What a quoted literal of the scanned sources is, and where it stands, apart from how any scanner reads it. */
module Quoting {

  predicate IsMark(c: char) {
    c == '\'' || c == '"' || c == '`'
  }

  /** Units one after the other: an escaped character, or one that is neither a backslash nor the quote. */
  predicate IsBody(quote: char, v: string) {
    if v == "" then true
    else if v[0] == '\\' then |v| >= 2 && IsBody(quote, v[2..])
    else v[0] != quote && IsBody(quote, v[1..])
  }

  // ---- Where a string stands in another ----

  /** `w` stands in `s` at `i`. */
  ghost predicate At(s: string, i: nat, w: string)
    decreases |w|
  {
    if w == "" then i <= |s| else i < |s| && s[i] == w[0] && At(s, i + 1, w[1..])
  }

  lemma {:induction false} AtSlice(s: string, i: nat, w: string)
    ensures At(s, i, w) <==> i + |w| <= |s| && s[i..i + |w|] == w
    decreases |w|
  {
    if w != "" {
      AtSlice(s, i + 1, w[1..]);
      if i + |w| <= |s| {
        assert s[i..i + |w|] == [s[i]] + s[i + 1..i + |w|] && w == [w[0]] + w[1..];
      }
    }
  }

  lemma {:induction false} AtConcat(s: string, i: nat, a: string, b: string)
    ensures At(s, i, a + b) <==> At(s, i, a) && At(s, i + |a|, b)
    decreases |a|
  {
    if a == "" {
      assert a + b == b;
      AtSlice(s, i, b);
    } else {
      assert (a + b)[1..] == a[1..] + b;
      AtConcat(s, i + 1, a[1..], b);
    }
  }
}
