/**
  Values and the sequence vocabulary the merge is stated in: the element type,
  the sentinel, sortedness, concatenation of blocks and counting of flags.
*/
module Sequences {

  /** The element type of the runs: a 32-bit C++ `int`. */
  newtype int32 = x: int | -0x8000_0000 <= x < 0x8000_0000

  /** `std::numeric_limits<int>::max()`, published by a worker whose run is empty. */
  const INT_MAX: int32 := 0x7FFF_FFFF

  predicate Sorted(s: seq<int32>) {
    forall i, j :: 0 <= i < j < |s| ==> s[i] <= s[j]
  }

  /** `s` is what sorting `chunk` yields: sorted, with the same elements. */
  predicate SortedPermutation(s: seq<int32>, chunk: seq<int32>) {
    Sorted(s) && multiset(s) == multiset(chunk)
  }

  /** The blocks concatenated in index order. */
  function Flatten(ss: seq<seq<int32>>): seq<int32> {
    if ss == [] then [] else Flatten(ss[..|ss| - 1]) + ss[|ss| - 1]
  }

  /** Number of `true` entries. */
  function CountTrue(bs: seq<bool>): (c: nat)
    ensures c <= |bs|
  {
    if bs == [] then 0 else CountTrue(bs[..|bs| - 1]) + (if bs[|bs| - 1] then 1 else 0)
  }

  /** Pointwise disjunction of two flag sequences. */
  function Union(a: seq<bool>, b: seq<bool>): seq<bool>
    requires |a| == |b|
  {
    seq(|a|, i requires 0 <= i < |a| => a[i] || b[i])
  }

  lemma {:induction false} FlattenEmpty(ss: seq<seq<int32>>)
    ensures Flatten(ss) == [] <==> forall i :: 0 <= i < |ss| ==> ss[i] == []
  {
    if ss != [] {
      var last := |ss| - 1;
      FlattenEmpty(ss[..last]);
      assert forall i :: 0 <= i < last ==> ss[..last][i] == ss[i];
    }
  }

  /** Concatenation distributes over appending sequences of blocks. */
  lemma {:induction false} FlattenConcat(a: seq<seq<int32>>, b: seq<seq<int32>>)
    ensures Flatten(a + b) == Flatten(a) + Flatten(b)
  {
    if b == [] {
      assert a + b == a;
    } else {
      var last := |b| - 1;
      FlattenConcat(a, b[..last]);
      assert (a + b)[..|a + b| - 1] == a + b[..last];
    }
  }

  /** The concatenation around block `w`. */
  lemma {:induction false} FlattenAround(ss: seq<seq<int32>>, w: nat)
    requires w < |ss|
    ensures Flatten(ss) == Flatten(ss[..w]) + ss[w] + Flatten(ss[w + 1..])
  {
    var front := ss[..w] + [ss[w]];
    assert front[..|front| - 1] == ss[..w];
    assert Flatten(front) == Flatten(ss[..w]) + ss[w];
    assert ss == front + ss[w + 1..];
    FlattenConcat(front, ss[w + 1..]);
  }

  /** Popping the head of block `w` removes exactly that element from the concatenation. */
  lemma {:induction false} FlattenPop(ss: seq<seq<int32>>, w: nat)
    requires w < |ss| && ss[w] != []
    ensures multiset(Flatten(ss[w := ss[w][1..]])) + multiset{ss[w][0]} == multiset(Flatten(ss))
    ensures |Flatten(ss[w := ss[w][1..]])| + 1 == |Flatten(ss)|
  {
    var popped := ss[w := ss[w][1..]];
    FlattenAround(ss, w);
    FlattenAround(popped, w);
    assert popped[..w] == ss[..w] && popped[w + 1..] == ss[w + 1..];
    assert ss[w] == [ss[w][0]] + ss[w][1..];
  }

  /** Appending to block `j` when every later block is empty appends to the concatenation. */
  lemma {:induction false} FlattenAppendAt(ss: seq<seq<int32>>, j: nat, x: int32)
    requires j < |ss|
    requires forall i :: j < i < |ss| ==> ss[i] == []
    ensures Flatten(ss[j := ss[j] + [x]]) == Flatten(ss) + [x]
  {
    var grown := ss[j := ss[j] + [x]];
    FlattenAround(ss, j);
    FlattenAround(grown, j);
    assert grown[..j] == ss[..j] && grown[j + 1..] == ss[j + 1..];
    FlattenEmpty(ss[j + 1..]);
  }

  /** Blocks that are pointwise permutations of each other concatenate to permutations. */
  lemma {:induction false} FlattenSameElements(a: seq<seq<int32>>, b: seq<seq<int32>>)
    requires |a| == |b|
    requires forall i :: 0 <= i < |a| ==> multiset(a[i]) == multiset(b[i])
    ensures multiset(Flatten(a)) == multiset(Flatten(b))
  {
    if a != [] {
      var last := |a| - 1;
      FlattenSameElements(a[..last], b[..last]);
    }
  }

  lemma {:induction false} CountTrueAll(bs: seq<bool>)
    ensures CountTrue(bs) == |bs| <==> forall i :: 0 <= i < |bs| ==> bs[i]
  {
    if bs != [] {
      var last := |bs| - 1;
      CountTrueAll(bs[..last]);
      assert forall i :: 0 <= i < last ==> bs[..last][i] == bs[i];
    }
  }

  lemma {:induction false} CountTrueNone(bs: seq<bool>)
    requires forall i :: 0 <= i < |bs| ==> !bs[i]
    ensures CountTrue(bs) == 0
  {
    if bs != [] {
      CountTrueNone(bs[..|bs| - 1]);
    }
  }

  /** Counting is additive over a disjoint union of flags. */
  lemma {:induction false} CountUnion(a: seq<bool>, b: seq<bool>)
    requires |a| == |b|
    requires forall i :: 0 <= i < |a| ==> !(a[i] && b[i])
    ensures CountTrue(Union(a, b)) == CountTrue(a) + CountTrue(b)
  {
    if a != [] {
      var last := |a| - 1;
      CountUnion(a[..last], b[..last]);
      assert Union(a, b)[..last] == Union(a[..last], b[..last]);
    }
  }
}
