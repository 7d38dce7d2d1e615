/**
  What one worker (workerThread in main.cpp) computes on its own state each
  round: the value it publishes, its pop, its rank mask and its completion test.
*/
module Worker {
  import opened Sequences

  /** The value a worker publishes: the head of its run, or the sentinel once it is empty. */
  function Slot(run: seq<int32>): int32 {
    if run != [] then run[0] else INT_MAX
  }

  /** Removing the head of a run, which the worker does only when its run is not empty. */
  function PopHead(run: seq<int32>): seq<int32> {
    if run != [] then run[1..] else run
  }

  /**
    The rank mask of worker `id`, computed from the round counter before the
    coordinator increments it: round `loopIndex + 1` lies in `id`'s range
    [id * n + 1, (id + 1) * n].
  */
  predicate Mask(id: nat, loopIndex: nat, n: nat) {
    id * n + 1 <= loopIndex + 1 <= (id + 1) * n
  }

  /** The completion test: the run is used up and the block holds `n` values. */
  predicate Finished(run: seq<int32>, block: seq<int32>, n: nat) {
    run == [] && |block| == n
  }

  /** How many of the first `rank` minima fall in a range of width `n` that starts `offset` ranks in. */
  function Clip(offset: int, n: nat): nat {
    if offset <= 0 then 0 else if offset >= n then n else offset
  }

  lemma MulMono(a: nat, b: nat, n: nat)
    requires a <= b
    ensures a * n <= b * n
  {
    assert b * n == a * n + (b - a) * n;
  }

  /** The bounds of worker `i`'s range of n ranks within k * n. */
  lemma RangeBounds(i: nat, k: nat, n: nat)
    requires i < k
    ensures i * n + n == (i + 1) * n <= k * n
  {
    MulMono(i + 1, k, n);
  }

  /** Once all k * n ranks are handed out, the range of every worker below k is full. */
  lemma ClipFull(i: nat, k: nat, n: nat)
    requires i < k
    ensures Clip(k * n - i * n, n) == n
  {
    RangeBounds(i, k, n);
  }

  /**
    The masks partition the rounds 1..k*n: for every round before the last,
    exactly one worker `j` below `k` has its mask set, the one whose range
    holds the round, and every later worker's range starts after it.
  */
  lemma MaskPartition(k: nat, n: nat, loopIndex: nat) returns (j: nat)
    requires loopIndex < k * n
    ensures n > 0 && j == loopIndex / n && j < k
    ensures forall i :: 0 <= i < k ==> (Mask(i, loopIndex, n) <==> i == j)
    ensures forall i :: j < i ==> loopIndex < i * n
  {
    j := loopIndex / n;
    assert j * n <= loopIndex < j * n + n;
    if j >= k {
      MulMono(k, j, n);
    }
    forall i | 0 <= i && i != j
      ensures !Mask(i, loopIndex, n)
    {
      if i < j {
        MulMono(i + 1, j, n);
      } else {
        MulMono(j + 1, i, n);
      }
    }
    forall i | j < i
      ensures loopIndex < i * n
    {
      MulMono(j + 1, i, n);
    }
  }

  /** No worker below `k` has its mask set once the counter has reached k*n. */
  lemma MaskNoneAfter(k: nat, n: nat, loopIndex: nat)
    requires k * n <= loopIndex
    ensures forall i :: 0 <= i < k ==> !Mask(i, loopIndex, n)
  {
    forall i | 0 <= i < k
      ensures !Mask(i, loopIndex, n)
    {
      MulMono(i + 1, k, n);
    }
  }

  /** One more round adds one value to the range of the masked worker and to no other. */
  lemma ClipStep(id: nat, loopIndex: nat, n: nat)
    ensures Clip(loopIndex + 1 - id * n, n) == Clip(loopIndex - id * n, n) + (if Mask(id, loopIndex, n) then 1 else 0)
  {
    assert (id + 1) * n == id * n + n;
  }
}
