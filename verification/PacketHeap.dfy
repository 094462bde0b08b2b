/**
 The priority queue of packets waiting for their time: the binary heap of the
 Go library's `container/heap`, over the packet order of the router.
 */
module PacketHeap {

  /** `src` is carried only to state claims about directed legs: the program never reads it. */
  datatype Packet = Packet(at: int, seqNo: nat, src: nat, dst: nat, data: seq<bv8>)

  predicate Less(p: Packet, q: Packet) {
    if p.at == q.at then p.seqNo < q.seqNo else p.at < q.at
  }

  /** `p` is the packet of `bag` with the least time, and of those with that time the one with the least number. */
  ghost predicate IsNext(p: Packet, bag: multiset<Packet>) {
    p in bag && forall q | q in bag :: p.at < q.at || (p.at == q.at && p.seqNo <= q.seqNo)
  }

  function Parent(i: nat): nat
    requires i > 0
  {
    (i - 1) / 2
  }

  ghost predicate Ordered(s: seq<Packet>) {
    forall i | 0 < i < |s| :: !Less(s[i], s[Parent(i)])
  }

  function Swapped(s: seq<Packet>, i: nat, j: nat): seq<Packet>
    requires i < |s| && j < |s|
  {
    s[i := s[j]][j := s[i]]
  }

  lemma SwapKeepsBag(s: seq<Packet>, i: nat, j: nat)
    requires i < |s| && j < |s|
    ensures multiset(Swapped(s, i, j)) == multiset(s)
  {
  }

  lemma {:induction false} RootIsNext(s: seq<Packet>, i: nat)
    requires Ordered(s) && i < |s|
    ensures !Less(s[i], s[0])
  {
    if i > 0 {
      RootIsNext(s, Parent(i));
    }
  }

  /** Ordered but for `j`, which may have to rise; its children are already below its parent. */
  ghost predicate OrderedBelow(s: seq<Packet>, j: nat) {
    && (forall i | 0 < i < |s| && i != j :: !Less(s[i], s[Parent(i)]))
    && (forall i | 0 < i < |s| && j > 0 && Parent(i) == j && j < |s| :: !Less(s[i], s[Parent(j)]))
  }

  /** The first `n` are ordered but for `j`, which may have to sink; its children are already below its parent. */
  ghost predicate OrderedAbove(s: seq<Packet>, j: nat, n: nat)
    requires n <= |s|
  {
    && (forall i | 0 < i < n && Parent(i) != j :: !Less(s[i], s[Parent(i)]))
    && (forall i | 0 < i < n && j > 0 && Parent(i) == j :: !Less(s[i], s[Parent(j)]))
  }

  lemma {:induction false} RootIsNextInBag(s: seq<Packet>)
    requires Ordered(s) && s != []
    ensures IsNext(s[0], multiset(s))
  {
    forall q | q in multiset(s)
      ensures !Less(q, s[0])
    {
      var i :| 0 <= i < |s| && s[i] == q;
      RootIsNext(s, i);
    }
  }

  /** Dropping the last item, once it has been swapped there. */
  lemma WithoutLast(s: seq<Packet>, n: nat)
    requires |s| == n + 1
    ensures multiset(s[..n]) == multiset(s) - multiset{s[n]}
  {
    assert s == s[..n] + [s[n]];
  }

  /** `j` is a child of `i` below `n` and no child of `i` goes before it. */
  ghost predicate IsFirstChild(s: seq<Packet>, i: nat, j: nat, n: nat)
    requires n <= |s|
  {
    && 0 < j < n && Parent(j) == i
    && (forall c | 0 < c < n && Parent(c) == i :: !Less(s[c], s[j]))
  }

  lemma FirstChildIs(s: seq<Packet>, i: nat, j: nat, n: nat)
    requires n <= |s| && 2 * i + 1 <= j < n
    requires if 2 * i + 2 < n && Less(s[2 * i + 2], s[2 * i + 1]) then j == 2 * i + 2 else j == 2 * i + 1
    ensures IsFirstChild(s, i, j, n)
  {
  }

  lemma SinkStep(s: seq<Packet>, i: nat, j: nat, n: nat)
    requires n <= |s| && OrderedAbove(s, i, n) && IsFirstChild(s, i, j, n)
    requires Less(s[j], s[i])
    ensures OrderedAbove(Swapped(s, i, j), j, n) && Swapped(s, i, j)[n..] == s[n..]
  {
    var t := Swapped(s, i, j);
    forall k | 0 < k < n && Parent(k) != j
      ensures !Less(t[k], t[Parent(k)])
    {
      if k == i {
        assert !Less(s[j], s[Parent(i)]);
      }
    }
    forall k | 0 < k < n && Parent(k) == j
      ensures !Less(t[k], t[Parent(j)])
    {
      assert !Less(s[k], s[j]);
    }
  }

  lemma RiseStep(s: seq<Packet>, j: nat)
    requires 0 < j < |s| && OrderedBelow(s, j) && Less(s[j], s[Parent(j)])
    ensures OrderedBelow(Swapped(s, j, Parent(j)), Parent(j))
  {
    var i := Parent(j);
    var t := Swapped(s, j, i);
    forall k | 0 < k < |s| && k != i
      ensures !Less(t[k], t[Parent(k)])
    {
      assert Parent(k) == j ==> !Less(s[k], s[i]);
    }
    forall k | 0 < k < |s| && i > 0 && Parent(k) == i
      ensures !Less(t[k], t[Parent(i)])
    {
      assert !Less(s[i], s[Parent(i)]);
    }
  }

  class Heap {
    var items: seq<Packet>

    ghost predicate Valid()
      reads this
    {
      Ordered(items)
    }

    ghost function Bag(): multiset<Packet>
      reads this
    {
      multiset(items)
    }

    constructor ()
      ensures Valid() && items == []
    {
      items := [];
    }

    method Push(p: Packet)
      requires Valid()
      modifies this
      ensures Valid() && Bag() == old(Bag()) + multiset{p}
      ensures |items| == old(|items|) + 1
    {
      items := items + [p];
      var j: nat := |items| - 1;
      while j > 0 && Less(items[j], items[Parent(j)])
        invariant j < |items| == old(|items|) + 1
        invariant OrderedBelow(items, j)
        invariant Bag() == old(Bag()) + multiset{p}
      {
        SwapKeepsBag(items, j, Parent(j));
        RiseStep(items, j);
        items := Swapped(items, j, Parent(j));
        j := Parent(j);
      }
    }

    method Pop() returns (p: Packet)
      requires Valid() && items != []
      modifies this
      ensures Valid() && IsNext(p, old(Bag()))
      ensures Bag() == old(Bag()) - multiset{p}
      ensures |items| == old(|items|) - 1 && p == old(items)[0]
    {
      var n := |items| - 1;
      RootIsNextInBag(items);
      SwapKeepsBag(items, 0, n);
      items := Swapped(items, 0, n);
      p := items[n];
      Sink(n);
      WithoutLast(items, n);
      items := items[..n];
    }

    /** Moves the root of the first `n` items down to its place. */
    method Sink(n: nat)
      requires n < |items| && OrderedAbove(items, 0, n)
      modifies this
      ensures |items| == old(|items|) && Ordered(items[..n])
      ensures items[n..] == old(items)[n..] && Bag() == old(Bag())
    {
      var i: nat := 0;
      while true
        invariant |items| == old(|items|) && OrderedAbove(items, i, n)
        invariant items[n..] == old(items)[n..] && Bag() == old(Bag())
        decreases n - i
      {
        var j: nat := 2 * i + 1;
        if j >= n {
          break;
        }
        if j + 1 < n && Less(items[j + 1], items[j]) {
          j := j + 1;
        }
        FirstChildIs(items, i, j, n);
        if !Less(items[j], items[i]) {
          break;
        }
        SwapKeepsBag(items, i, j);
        SinkStep(items, i, j, n);
        items := Swapped(items, i, j);
        i := j;
      }
    }
  }
}
