/**
  One round of the lock-step protocol as a function on the whole system state.
  The two barriers of main.cpp fix the order of the phases, so a round is:
  every worker computes its mask and publishes; the coordinator selects the
  first minimum, overwrites the front of the buffer with it and advances the
  counter; the winner pops; the masked workers append; workers that are
  finished report once.
*/
module Rounds {
  import opened Sequences
  import opened Coordinator
  import opened Worker

  /** The state of the system between two rounds. */
  datatype Snapshot = Snapshot(
    runs: seq<seq<int32>>,    // each worker's vector_
    blocks: seq<seq<int32>>,  // each worker's vector_sorted_
    buffer: seq<int32>,       // g_master_node.buffer_
    winner: nat,              // g_master_node.thread_index_
    loopIndex: nat,           // g_loop_index
    pushed: nat,              // g_master_node.pushed_elements_
    done: nat,                // g_threads_done
    reported: seq<bool>)      // per worker, the negation of its node_killed flag

  /** One run, one block, one slot and one flag per worker. */
  predicate WellFormed(s: Snapshot) {
    |s.blocks| == |s.runs| && |s.buffer| == |s.runs| && |s.reported| == |s.runs|
  }

  /** The slots after every worker has published. */
  function Publish(runs: seq<seq<int32>>): seq<int32> {
    seq(|runs|, i requires 0 <= i < |runs| => Slot(runs[i]))
  }

  /** Every worker whose mask is set and whose block is not full appends the minimum `m`. */
  function Collect(blocks: seq<seq<int32>>, loopIndex: nat, n: nat, m: int32): seq<seq<int32>> {
    seq(|blocks|, i requires 0 <= i < |blocks| =>
      if |blocks[i]| < n && Mask(i, loopIndex, n) then blocks[i] + [m] else blocks[i])
  }

  /** The workers that report in this round: finished now, not reported before. */
  function NewlyFinished(runs: seq<seq<int32>>, blocks: seq<seq<int32>>, reported: seq<bool>, n: nat): seq<bool>
    requires |blocks| == |runs| && |reported| == |runs|
  {
    seq(|runs|, i requires 0 <= i < |runs| => Finished(runs[i], blocks[i], n) && !reported[i])
  }

  /**
    One round on `s` with blocks of capacity `n`. The result's front slot is
    the first smallest published value and the winner its index; only the
    winner's run changes; the counter advances by one.
  */
  function Step(s: Snapshot, n: nat): (r: Snapshot)
    requires WellFormed(s) && |s.runs| > 0
    ensures WellFormed(r) && |r.runs| == |s.runs|
    ensures r.loopIndex == s.loopIndex + 1 && r.pushed == 0
    ensures r.winner < |s.runs| && r.buffer[0] == Slot(s.runs[r.winner])
    ensures forall i :: 0 <= i < |s.runs| ==> r.buffer[0] <= Slot(s.runs[i])
    ensures forall i :: 0 <= i < r.winner ==> r.buffer[0] < Slot(s.runs[i])
    ensures forall i :: 0 <= i < |s.runs| && i != r.winner ==> r.runs[i] == s.runs[i]
    ensures r.runs[r.winner] == PopHead(s.runs[r.winner])
  {
    var published := Publish(s.runs);
    assert forall i :: 0 <= i < |s.runs| ==> published[i] == Slot(s.runs[i]);
    var w := FirstMin(published);
    var buffer := published[0 := published[w]];
    var runs := s.runs[w := PopHead(s.runs[w])];
    var blocks := Collect(s.blocks, s.loopIndex, n, buffer[0]);
    var newly := NewlyFinished(runs, blocks, s.reported, n);
    Snapshot(runs, blocks, buffer, w, s.loopIndex + 1, 0, s.done + CountTrue(newly), Union(s.reported, newly))
  }

  /** Every element of every run is below the sentinel. */
  predicate BelowSentinel(runs: seq<seq<int32>>) {
    forall i, j :: 0 <= i < |runs| && 0 <= j < |runs[i]| ==> runs[i][j] < INT_MAX
  }

  /**
    While real data stays below the sentinel, an exhausted worker never wins a
    round in which some run still has data: the winner's run is non-empty, the
    minimum is its head, and exactly that one element leaves the runs.
  */
  lemma OneCursorAdvances(s: Snapshot, n: nat)
    requires WellFormed(s) && |s.runs| > 0
    requires BelowSentinel(s.runs)
    requires exists i :: 0 <= i < |s.runs| && s.runs[i] != []
    ensures var r := Step(s, n);
      && s.runs[r.winner] != []
      && r.buffer[0] == s.runs[r.winner][0]
      && r.runs == s.runs[r.winner := s.runs[r.winner][1..]]
      && multiset(Flatten(r.runs)) + multiset{r.buffer[0]} == multiset(Flatten(s.runs))
      && |Flatten(r.runs)| + 1 == |Flatten(s.runs)|
  {
    var r := Step(s, n);
    var w := r.winner;
    var i :| 0 <= i < |s.runs| && s.runs[i] != [];
    assert r.buffer[0] <= Slot(s.runs[i]) < INT_MAX;
    assert s.runs[w] != [];
    FlattenPop(s.runs, w);
  }

  /** A block grows only in its worker's masked rounds, only below capacity, and only by the round's minimum. */
  lemma BlocksBounded(s: Snapshot, n: nat)
    requires WellFormed(s) && |s.runs| > 0
    requires forall i :: 0 <= i < |s.blocks| ==> |s.blocks[i]| <= n
    ensures forall i :: 0 <= i < |s.blocks| ==> |Step(s, n).blocks[i]| <= n
    ensures forall i :: 0 <= i < |s.blocks| && Step(s, n).blocks[i] != s.blocks[i] ==>
      Mask(i, s.loopIndex, n) && |s.blocks[i]| < n && Step(s, n).blocks[i] == s.blocks[i] + [Step(s, n).buffer[0]]
  {
  }

  /**
    Completion is recorded at most once per worker: flags only go from false to
    true, a worker reports only when it is finished, and the done count grows
    by exactly the number of flags that went up.
  */
  lemma ReportOnce(s: Snapshot, n: nat)
    requires WellFormed(s) && |s.runs| > 0
    ensures forall i :: 0 <= i < |s.runs| && s.reported[i] ==> Step(s, n).reported[i]
    ensures forall i :: 0 <= i < |s.runs| && Step(s, n).reported[i] && !s.reported[i] ==>
      Finished(Step(s, n).runs[i], Step(s, n).blocks[i], n)
    ensures Step(s, n).done + CountTrue(s.reported) == s.done + CountTrue(Step(s, n).reported)
  {
    var r := Step(s, n);
    var newly := NewlyFinished(r.runs, r.blocks, s.reported, n);
    CountUnion(s.reported, newly);
  }

  /** With a genuine INT_MAX in a run, the exhausted worker 0 ties with it and keeps winning. */
  function Stuck(loopIndex: nat): Snapshot {
    Snapshot([[], [INT_MAX]], [[INT_MAX], [INT_MAX]], [INT_MAX, INT_MAX], 0, loopIndex, 0, 1, [true, false])
  }

  /**
    The sentinel corner (K = 2, N = 1, input [INT_MAX, INT_MAX]): from the
    state after round 2 (KWayMerge.SentinelReached reaches it) every round only advances the counter, so worker 1
    never pops its INT_MAX, never reports, and the done count stays below K.
  */
  lemma SentinelLivelock(loopIndex: nat)
    ensures Step(Stuck(loopIndex), 1) == Stuck(loopIndex + 1)
    ensures Stuck(loopIndex).done < |Stuck(loopIndex).runs|
  {
    var s := Stuck(loopIndex);
    var r := Step(s, 1);
    assert Publish(s.runs) == [INT_MAX, INT_MAX];
    assert r.winner == 0;
    assert r.runs == s.runs;
    assert r.blocks == s.blocks;
    assert NewlyFinished(r.runs, r.blocks, s.reported, 1) == [false, false];
    CountTrueNone([false, false]);
    assert r.reported == s.reported;
  }

  /** Ranks handed out so far: one per round up to k*n. */
  function Rank(loopIndex: nat, k: nat, n: nat): nat {
    if loopIndex <= k * n then loopIndex else k * n
  }

  /** The round after which the done count reaches k. */
  function LastRound(k: nat, n: nat): nat {
    if k > 0 && n == 0 then 1 else k * n
  }

  /**
    Sizes: the counter has not passed the last round; block `i` holds the
    minima of the ranks in its range [i * n + 1, (i + 1) * n] handed out so
    far; the blocks hold `rank` values and the runs the other k*n - rank.
  */
  predicate ShapeInv(s: Snapshot, n: nat) {
    var k := |s.runs|;
    var rank := Rank(s.loopIndex, k, n);
    && WellFormed(s)
    && s.pushed == 0
    && s.loopIndex <= LastRound(k, n)
    && (forall i :: 0 <= i < k ==> |s.blocks[i]| == Clip(rank - i * n, n))
    && |Flatten(s.blocks)| == rank
    && |Flatten(s.runs)| + rank == k * n
  }

  /** Every element of every run dominates every element of `out`. */
  predicate Dominates(runs: seq<seq<int32>>, out: seq<int32>) {
    forall i, j, m :: 0 <= i < |runs| && 0 <= j < |runs[i]| && 0 <= m < |out| ==> out[m] <= runs[i][j]
  }

  /**
    Order: the runs are sorted and below the sentinel; the blocks concatenate
    to a sorted sequence, none of whose elements exceeds anything left in the runs.
  */
  predicate OrderInv(s: Snapshot) {
    && (forall i :: 0 <= i < |s.runs| ==> Sorted(s.runs[i]))
    && BelowSentinel(s.runs)
    && Sorted(Flatten(s.blocks))
    && Dominates(s.runs, Flatten(s.blocks))
  }

  /** Content: blocks and runs together hold exactly the input. */
  predicate ContentInv(s: Snapshot, input: seq<int32>) {
    multiset(Flatten(s.blocks)) + multiset(Flatten(s.runs)) == multiset(input)
  }

  /** Reports: the done count counts the reported workers, and a worker has reported exactly when it is finished. */
  predicate ReportInv(s: Snapshot, n: nat)
    requires WellFormed(s)
  {
    && s.done == CountTrue(s.reported)
    && (forall i :: 0 <= i < |s.runs| ==> (s.reported[i] <==> s.loopIndex >= 1 && Finished(s.runs[i], s.blocks[i], n)))
  }

  /** What holds between rounds of a merge of `input` with blocks of capacity `n`. */
  predicate MergeInv(s: Snapshot, n: nat, input: seq<int32>) {
    ShapeInv(s, n) && OrderInv(s) && ContentInv(s, input) && ReportInv(s, n)
  }

  /**
    While the runs hold data, the winner's run is non-empty, the minimum is
    its head and no greater than anything left in the runs, and only that
    head leaves the runs.
  */
  lemma RoundMinimum(s: Snapshot, n: nat)
    requires WellFormed(s) && |s.runs| > 0
    requires OrderInv(s) && Flatten(s.runs) != []
    ensures var r := Step(s, n); var w := r.winner;
      && s.runs[w] != [] && r.buffer[0] == s.runs[w][0]
      && (forall i, j :: 0 <= i < |s.runs| && 0 <= j < |s.runs[i]| ==> s.runs[w][0] <= s.runs[i][j])
      && r.runs == s.runs[w := s.runs[w][1..]]
  {
    var r := Step(s, n);
    var m := r.buffer[0];
    FlattenEmpty(s.runs);
    OneCursorAdvances(s, n);
    forall i, j | 0 <= i < |s.runs| && 0 <= j < |s.runs[i]|
      ensures m <= s.runs[i][j]
    {
      assert Slot(s.runs[i]) == s.runs[i][0];
    }
  }

  /**
    When block sizes follow the rank and worker `j` is the only masked one,
    collecting appends `m` to block `j` alone, which is below capacity, while
    every later block is still empty; the sizes then follow the next rank.
  */
  lemma CollectOne(blocks: seq<seq<int32>>, loopIndex: nat, n: nat, m: int32, j: nat)
    requires j < |blocks|
    requires forall i :: 0 <= i < |blocks| ==> |blocks[i]| == Clip(loopIndex - i * n, n)
    requires forall i :: 0 <= i < |blocks| ==> (Mask(i, loopIndex, n) <==> i == j)
    requires forall i :: j < i ==> loopIndex < i * n
    ensures Collect(blocks, loopIndex, n, m) == blocks[j := blocks[j] + [m]]
    ensures |blocks[j]| < n
    ensures forall i :: j < i < |blocks| ==> blocks[i] == []
    ensures forall i :: 0 <= i < |blocks| ==> |Collect(blocks, loopIndex, n, m)[i]| == Clip(loopIndex + 1 - i * n, n)
  {
    forall i | 0 <= i < |blocks|
      ensures |blocks[i]| < n && Mask(i, loopIndex, n) <==> i == j
      ensures |Collect(blocks, loopIndex, n, m)[i]| == Clip(loopIndex + 1 - i * n, n)
    {
      ClipStep(i, loopIndex, n);
    }
  }

  /**
    In a round before the last exactly the masked worker `j` appends the
    minimum, its block was below capacity, every later block is still empty,
    and block sizes follow the advanced rank.
  */
  lemma RoundBlocks(s: Snapshot, n: nat, j: nat)
    requires ShapeInv(s, n) && |s.runs| > 0
    requires s.loopIndex < |s.runs| * n && j < |s.runs|
    requires forall i :: 0 <= i < |s.runs| ==> (Mask(i, s.loopIndex, n) <==> i == j)
    requires forall i :: j < i ==> s.loopIndex < i * n
    ensures var r := Step(s, n);
      && r.blocks == s.blocks[j := s.blocks[j] + [r.buffer[0]]]
      && |s.blocks[j]| < n
      && (forall i :: j < i < |s.runs| ==> s.blocks[i] == [])
      && (forall i :: 0 <= i < |s.runs| ==> |r.blocks[i]| == Clip(s.loopIndex + 1 - i * n, n))
  {
    assert Rank(s.loopIndex, |s.runs|, n) == s.loopIndex;
    CollectOne(s.blocks, s.loopIndex, n, Step(s, n).buffer[0], j);
  }

  /** The order part after a round before the last, given the winner `w` and the masked worker `j`. */
  lemma KeepsOrder(s: Snapshot, r: Snapshot, w: nat, j: nat)
    requires OrderInv(s) && |s.blocks| == |s.runs|
    requires j < |s.runs| && w < |s.runs| && s.runs[w] != []
    requires forall i, jj :: 0 <= i < |s.runs| && 0 <= jj < |s.runs[i]| ==> s.runs[w][0] <= s.runs[i][jj]
    requires forall i :: j < i < |s.runs| ==> s.blocks[i] == []
    requires r.runs == s.runs[w := s.runs[w][1..]]
    requires r.blocks == s.blocks[j := s.blocks[j] + [s.runs[w][0]]]
    ensures Flatten(r.blocks) == Flatten(s.blocks) + [s.runs[w][0]]
    ensures OrderInv(r)
  {
    var m := s.runs[w][0];
    var out := Flatten(s.blocks);
    FlattenAppendAt(s.blocks, j, m);
    var out' := Flatten(r.blocks);
    forall i, jj, x | 0 <= i < |r.runs| && 0 <= jj < |r.runs[i]| && 0 <= x < |out'|
      ensures out'[x] <= r.runs[i][jj]
    {
      if i == w {
        assert r.runs[i][jj] == s.runs[i][jj + 1];
      }
      if x < |out| {
        assert out'[x] == out[x];
      }
    }
    assert forall x :: 0 <= x < |out| ==> out[x] <= m;
  }

  /** The content part after a round before the last. */
  lemma KeepsContent(s: Snapshot, r: Snapshot, input: seq<int32>, w: nat, j: nat)
    requires ContentInv(s, input) && |s.blocks| == |s.runs|
    requires j < |s.runs| && w < |s.runs| && s.runs[w] != []
    requires forall i :: j < i < |s.runs| ==> s.blocks[i] == []
    requires r.runs == s.runs[w := s.runs[w][1..]]
    requires r.blocks == s.blocks[j := s.blocks[j] + [s.runs[w][0]]]
    ensures |Flatten(r.runs)| + 1 == |Flatten(s.runs)|
    ensures |Flatten(r.blocks)| == |Flatten(s.blocks)| + 1
    ensures ContentInv(r, input)
  {
    FlattenPop(s.runs, w);
    FlattenAppendAt(s.blocks, j, s.runs[w][0]);
  }

  /** The size part after a round before the last. */
  lemma KeepsShape(s: Snapshot, r: Snapshot, n: nat)
    requires ShapeInv(s, n) && WellFormed(r) && |r.runs| == |s.runs|
    requires s.loopIndex < |s.runs| * n
    requires r.loopIndex == s.loopIndex + 1 && r.pushed == 0
    requires forall i :: 0 <= i < |s.runs| ==> |r.blocks[i]| == Clip(s.loopIndex + 1 - i * n, n)
    requires |Flatten(r.blocks)| == |Flatten(s.blocks)| + 1
    requires |Flatten(r.runs)| + 1 == |Flatten(s.runs)|
    ensures ShapeInv(r, n)
  {
    var k := |s.runs|;
    assert n > 0;
    assert LastRound(k, n) == k * n;
    assert Rank(s.loopIndex, k, n) == s.loopIndex;
    assert Rank(r.loopIndex, k, n) == r.loopIndex;
  }

  /**
    A worker that has reported stays finished when the winner `w` pops and
    worker `j`, whose block is below capacity, appends: neither can be it.
  */
  lemma FinishedStay(s: Snapshot, r: Snapshot, n: nat, w: nat, j: nat, x: int32)
    requires WellFormed(s) && ReportInv(s, n)
    requires j < |s.runs| && w < |s.runs| && s.runs[w] != [] && |s.blocks[j]| < n
    requires r.runs == s.runs[w := s.runs[w][1..]]
    requires r.blocks == s.blocks[j := s.blocks[j] + [x]]
    ensures forall i :: 0 <= i < |s.runs| && s.reported[i] ==> Finished(r.runs[i], r.blocks[i], n)
  {
  }

  /** The report part after any round that keeps finished workers finished. */
  lemma KeepsReports(s: Snapshot, r: Snapshot, n: nat)
    requires WellFormed(s) && WellFormed(r) && |r.runs| == |s.runs| && ReportInv(s, n)
    requires r.loopIndex == s.loopIndex + 1
    requires forall i :: 0 <= i < |s.runs| && s.reported[i] ==> Finished(r.runs[i], r.blocks[i], n)
    requires r.reported == Union(s.reported, NewlyFinished(r.runs, r.blocks, s.reported, n))
    requires r.done == s.done + CountTrue(NewlyFinished(r.runs, r.blocks, s.reported, n))
    ensures ReportInv(r, n)
  {
    CountUnion(s.reported, NewlyFinished(r.runs, r.blocks, s.reported, n));
  }

  /**
    A round before the last: the minimum is the smallest remaining element, it
    is appended at the end of the concatenated blocks (so the round minima
    never decrease), and the invariant is kept.
  */
  lemma ProductiveRound(s: Snapshot, n: nat, input: seq<int32>)
    requires MergeInv(s, n, input)
    requires s.loopIndex < |s.runs| * n
    ensures |s.runs| > 0
    ensures forall m :: 0 <= m < |Flatten(s.blocks)| ==> Flatten(s.blocks)[m] <= Step(s, n).buffer[0]
    ensures Flatten(Step(s, n).blocks) == Flatten(s.blocks) + [Step(s, n).buffer[0]]
    ensures MergeInv(Step(s, n), n, input)
  {
    var k := |s.runs|;
    assert k > 0 && Rank(s.loopIndex, k, n) == s.loopIndex;
    assert |Flatten(s.runs)| > 0;
    RoundMinimum(s, n);
    var j := MaskPartition(|s.runs|, n, s.loopIndex);
    RoundBlocks(s, n, j);
    var r := Step(s, n);
    var w := r.winner;
    KeepsOrder(s, r, w, j);
    KeepsContent(s, r, input, w, j);
    KeepsShape(s, r, n);
    FinishedStay(s, r, n, w, j, r.buffer[0]);
    KeepsReports(s, r, n);
  }

  /** With blocks of capacity 0 the invariant leaves only the first round to run. */
  lemma IdleStart(s: Snapshot, n: nat, input: seq<int32>)
    requires MergeInv(s, n, input)
    requires n == 0 && s.done != |s.runs|
    ensures |s.runs| > 0 && s.loopIndex == 0
    ensures forall i :: 0 <= i < |s.runs| ==> s.runs[i] == [] && s.blocks[i] == [] && !s.reported[i]
  {
    var k := |s.runs|;
    assert Flatten(s.runs) == [];
    FlattenEmpty(s.runs);
    assert forall i :: 0 <= i < k ==> Finished(s.runs[i], s.blocks[i], n);
    if s.loopIndex != 0 {
      CountTrueAll(s.reported);
      assert false;
    }
  }

  /** A round on empty runs and blocks of capacity 0 moves nothing and every worker reports. */
  lemma IdleStep(s: Snapshot)
    requires WellFormed(s) && |s.runs| > 0
    requires forall i :: 0 <= i < |s.runs| ==> s.runs[i] == [] && s.blocks[i] == [] && !s.reported[i]
    ensures Step(s, 0).runs == s.runs && Step(s, 0).blocks == s.blocks
    ensures forall i :: 0 <= i < |s.runs| ==> Step(s, 0).reported[i]
    ensures Step(s, 0).done == s.done + |s.runs|
  {
    var k := |s.runs|;
    var r := Step(s, 0);
    assert forall i :: 0 <= i < k ==> !Mask(i, s.loopIndex, 0);
    assert r.runs == s.runs;
    assert r.blocks == s.blocks;
    var newly := NewlyFinished(r.runs, r.blocks, s.reported, 0);
    assert forall i :: 0 <= i < k ==> newly[i];
    CountTrueAll(newly);
  }

  /**
    With blocks of capacity 0 the first round is idle: nothing is popped or
    appended, every worker is finished, and all of them report at once.
  */
  lemma IdleRound(s: Snapshot, n: nat, input: seq<int32>)
    requires MergeInv(s, n, input)
    requires n == 0 && s.done != |s.runs|
    ensures |s.runs| > 0 && s.loopIndex == 0
    ensures Step(s, n).runs == s.runs && Step(s, n).blocks == s.blocks
    ensures Step(s, n).done == |s.runs|
    ensures MergeInv(Step(s, n), n, input)
  {
    IdleStart(s, n, input);
    IdleStep(s);
    CountTrueNone(s.reported);
    CountTrueAll(Step(s, n).reported);
  }

  /** Once the counter has reached k*n (n > 0) every worker has reported. */
  lemma DoneAtLastRound(s: Snapshot, n: nat, input: seq<int32>)
    requires MergeInv(s, n, input)
    requires n > 0 && |s.runs| * n <= s.loopIndex
    ensures s.done == |s.runs|
  {
    var k := |s.runs|;
    assert Rank(s.loopIndex, k, n) == k * n;
    FlattenEmpty(s.runs);
    assert forall i :: 0 <= i < k ==> s.runs[i] == [];
    if k > 0 {
      MulMono(1, k, n);
      assert s.loopIndex >= 1;
    }
    forall i | 0 <= i < k
      ensures s.reported[i]
    {
      ClipFull(i, k, n);
    }
    CountTrueAll(s.reported);
  }

  /** While some worker has not reported, a round keeps the invariant. */
  lemma StepPreservesInv(s: Snapshot, n: nat, input: seq<int32>)
    requires MergeInv(s, n, input)
    requires s.done != |s.runs|
    ensures |s.runs| > 0
    ensures MergeInv(Step(s, n), n, input)
  {
    if n == 0 {
      IdleRound(s, n, input);
    } else if s.loopIndex < |s.runs| * n {
      ProductiveRound(s, n, input);
    } else {
      DoneAtLastRound(s, n, input);
      assert false;
    }
  }

  /** The counter arithmetic behind FinalState. */
  lemma FinalCounter(k: nat, n: nat, loopIndex: nat)
    requires loopIndex <= LastRound(k, n)
    requires Rank(loopIndex, k, n) == k * n
    requires k > 0 ==> loopIndex >= 1
    ensures loopIndex == LastRound(k, n)
  {
    if k > 0 && n > 0 {
      MulMono(1, k, n);
    }
  }

  /**
    When the done count reaches k: the counter stands at LastRound(k, n), every
    run is empty, every block holds n values, and the blocks concatenate to a
    sorted permutation of the input.
  */
  lemma FinalState(s: Snapshot, n: nat, input: seq<int32>)
    requires MergeInv(s, n, input)
    requires s.done == |s.runs|
    ensures s.loopIndex == LastRound(|s.runs|, n)
    ensures forall i :: 0 <= i < |s.runs| ==> s.runs[i] == [] && |s.blocks[i]| == n
    ensures SortedPermutation(Flatten(s.blocks), input)
  {
    var k := |s.runs|;
    CountTrueAll(s.reported);
    assert forall i :: 0 <= i < k ==> Finished(s.runs[i], s.blocks[i], n);
    FlattenEmpty(s.runs);
    assert Flatten(s.runs) == [];
    if k > 0 {
      assert s.reported[0];
    }
    FinalCounter(k, n, s.loopIndex);
  }
}
