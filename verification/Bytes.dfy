/** Bytes, and streams of them that arrive in pieces. */
module Bytes {
  type Byte = x: int | 0 <= x < 256

  /** The whole of which `chunks` are the pieces. */
  function Concat(chunks: seq<seq<Byte>>): seq<Byte> {
    if chunks == [] then [] else Concat(chunks[..|chunks| - 1]) + chunks[|chunks| - 1]
  }

  lemma Associative(a: seq<Byte>, b: seq<Byte>, c: seq<Byte>)
    ensures a + (b + c) == a + b + c
  {
  }

  lemma {:induction false} ConcatFirst(chunks: seq<seq<Byte>>)
    requires chunks != []
    ensures Concat(chunks) == chunks[0] + Concat(chunks[1..])
  {
    var n := |chunks| - 1;
    if n == 0 {
      assert Concat(chunks[..0]) == [];
    } else {
      ConcatFirst(chunks[..n]);
      assert chunks[..n][1..] == chunks[1..][..n - 1];
      assert chunks[1..][n - 1] == chunks[n];
    }
  }

  lemma {:induction false} ConcatPrefix(chunks: seq<seq<Byte>>, k: nat)
    requires k <= |chunks|
    ensures exists more :: Concat(chunks) == Concat(chunks[..k]) + more
  {
    var n := |chunks| - 1;
    if k == |chunks| {
      assert chunks[..k] == chunks;
      assert Concat(chunks) == Concat(chunks[..k]) + [];
    } else {
      ConcatPrefix(chunks[..n], k);
      assert chunks[..n][..k] == chunks[..k];
      var more :| Concat(chunks[..n]) == Concat(chunks[..k]) + more;
      assert Concat(chunks) == Concat(chunks[..k]) + (more + chunks[n]);
    }
  }
}
