/**
  The whole merge of main.cpp without its threads: main cuts the input into
  k subvectors of n values, every worker sorts its own, and then the
  workers and the coordinator run lock-step rounds until every worker has
  reported a full block. The shared state the threads update in place is
  the class RoundState; one call of Round is one round between the two
  barriers, and Run is the loop both thread kinds keep going while the done
  count is below k.
*/
module KWayMerge {
  import opened Sequences
  import opened Coordinator
  import opened Worker
  import opened Rounds

  /** Worker `i`'s subvector of n values. */
  function Chunk(input: seq<int32>, i: nat, n: nat): (chunk: seq<int32>)
    requires i * n + n <= |input|
    ensures |chunk| == n
  {
    input[i * n..i * n + n]
  }

  /** The subvectors main hands to the workers, one per worker. */
  function Chunks(input: seq<int32>, k: nat, n: nat): (chunks: seq<seq<int32>>)
    requires |input| == k * n
    ensures |chunks| == k
    ensures forall i :: 0 <= i < k ==> |chunks[i]| == n
  {
    seq(k, i requires 0 <= i < k => RangeBounds(i, k, n); Chunk(input, i, n))
  }

  /** Value `t` of chunk `i` is input value i * n + t. */
  lemma ChunkValue(input: seq<int32>, k: nat, n: nat, i: nat, t: nat)
    requires |input| == k * n && i < k && t < n
    ensures i * n + t < |input| && Chunks(input, k, n)[i][t] == input[i * n + t]
  {
    RangeBounds(i, k, n);
  }

  /** The first k - 1 chunks of the input are the chunks of its first (k - 1) * n values. */
  lemma ChunksPrefix(input: seq<int32>, k: nat, n: nat)
    requires |input| == k * n && k > 0
    ensures (k - 1) * n + n == k * n
    ensures Chunks(input, k, n)[..k - 1] == Chunks(input[..(k - 1) * n], k - 1, n)
    ensures Chunks(input, k, n)[k - 1] == input[(k - 1) * n..]
  {
    RangeBounds(k - 1, k, n);
    var front := input[..(k - 1) * n];
    forall i | 0 <= i < k - 1
      ensures Chunks(input, k, n)[i] == Chunks(front, k - 1, n)[i]
    {
      RangeBounds(i, k - 1, n);
    }
  }

  /** The chunks cover the input exactly, in order. */
  lemma {:induction false} ChunksFlatten(input: seq<int32>, k: nat, n: nat)
    requires |input| == k * n
    ensures Flatten(Chunks(input, k, n)) == input
  {
    if k > 0 {
      ChunksPrefix(input, k, n);
      var cut := (k - 1) * n;
      ChunksFlatten(input[..cut], k - 1, n);
      assert input[..cut] + input[cut..] == input;
    }
  }

  /** The state before the first round: the workers hold their runs, every block is empty, nobody has reported. */
  function Initial(runs: seq<seq<int32>>): Snapshot {
    var k := |runs|;
    Snapshot(runs, seq(k, _ => []), seq(k, _ => 0), 0, 0, 0, 0, seq(k, _ => false))
  }

  /** The state after the first round on input [INT_MAX, INT_MAX] with k = 2, n = 1. */
  function AfterFirstSentinelRound(): Snapshot {
    Snapshot([[], [INT_MAX]], [[INT_MAX], []], [INT_MAX, INT_MAX], 0, 1, 0, 1, [true, false])
  }

  /** main hands each of the two workers one INT_MAX. */
  lemma SentinelChunks()
    ensures Chunks([INT_MAX, INT_MAX], 2, 1) == [[INT_MAX], [INT_MAX]]
  {
    var input: seq<int32> := [INT_MAX, INT_MAX];
    var chunks := Chunks(input, 2, 1);
    assert chunks[0] == Chunk(input, 0, 1) == [INT_MAX];
    assert chunks[1] == Chunk(input, 1, 1) == [INT_MAX];
  }

  /**
    On input [INT_MAX, INT_MAX] with two workers and blocks of one value, the
    first round is a tie that worker 0 wins: its value goes to block 0 and
    worker 0 reports.
  */
  lemma SentinelStart()
    ensures Step(Initial(Chunks([INT_MAX, INT_MAX], 2, 1)), 1) == AfterFirstSentinelRound()
  {
    SentinelChunks();
    var s := Initial([[INT_MAX], [INT_MAX]]);
    assert s.blocks == [[], []];
    var r := Step(s, 1);
    assert Publish(s.runs) == [INT_MAX, INT_MAX];
    assert r.winner == 0;
    assert r.runs == [[], [INT_MAX]];
    assert Mask(0, 0, 1) && !Mask(1, 0, 1);
    assert r.blocks[0] == [INT_MAX] && r.blocks[1] == [];
    assert r.blocks == [[INT_MAX], []];
    assert NewlyFinished(r.runs, r.blocks, s.reported, 1) == [true, false];
    assert CountTrue([true, false]) == 1;
    assert r.reported == [true, false];
  }

  /**
    Two rounds on that input reach the livelock state of SentinelLivelock:
    worker 0 is exhausted, and worker 1 holds a genuine INT_MAX it never pops.
  */
  lemma SentinelReached()
    ensures Step(Step(Initial(Chunks([INT_MAX, INT_MAX], 2, 1)), 1), 1) == Stuck(2)
  {
    SentinelStart();
    var s := AfterFirstSentinelRound();
    var r := Step(s, 1);
    assert Publish(s.runs) == [INT_MAX, INT_MAX];
    assert r.winner == 0;
    assert r.runs == s.runs;
    assert !Mask(0, 1, 1) && Mask(1, 1, 1);
    assert r.blocks == [[INT_MAX], [INT_MAX]];
    assert NewlyFinished(r.runs, r.blocks, s.reported, 1) == [false, false];
    CountTrueNone([false, false]);
    assert r.reported == [true, false];
  }

  /** A permutation of a chunk of an input below the sentinel is below the sentinel. */
  lemma SortedBelow(input: seq<int32>, k: nat, n: nat, sorted: seq<seq<int32>>)
    requires |input| == k * n
    requires forall i :: 0 <= i < |input| ==> input[i] < INT_MAX
    requires |sorted| == k
    requires forall i :: 0 <= i < k ==> multiset(sorted[i]) == multiset(Chunks(input, k, n)[i])
    ensures BelowSentinel(sorted)
  {
    forall i, j | 0 <= i < k && 0 <= j < |sorted[i]|
      ensures sorted[i][j] < INT_MAX
    {
      var chunk := Chunks(input, k, n)[i];
      var x := sorted[i][j];
      assert x in multiset(sorted[i]);
      assert x in chunk;
      var t :| 0 <= t < n && chunk[t] == x;
      ChunkValue(input, k, n, i, t);
    }
  }

  /** Before the first round the sizes are those of rank 0. */
  lemma InitialShape(runs: seq<seq<int32>>, n: nat)
    requires |Flatten(runs)| == |runs| * n
    ensures ShapeInv(Initial(runs), n)
  {
    var s := Initial(runs);
    FlattenEmpty(s.blocks);
    forall i | 0 <= i < |runs|
      ensures |s.blocks[i]| == Clip(0 - i * n, n)
    {
      MulMono(0, i, n);
    }
  }

  /** Sorting the chunks keeps all of the input in the runs. */
  lemma InitialContent(input: seq<int32>, k: nat, n: nat, sorted: seq<seq<int32>>)
    requires |input| == k * n && |sorted| == k
    requires forall i :: 0 <= i < k ==> multiset(sorted[i]) == multiset(Chunks(input, k, n)[i])
    ensures multiset(Flatten(sorted)) == multiset(input) && |Flatten(sorted)| == k * n
  {
    FlattenSameElements(sorted, Chunks(input, k, n));
    ChunksFlatten(input, k, n);
    assert |Flatten(sorted)| == |multiset(Flatten(sorted))| == |input|;
  }

  /**
    When every worker's run is a sorted permutation of its chunk and every
    value is below the sentinel, the state before the first round satisfies
    the merge invariant.
  */
  lemma InitialInv(input: seq<int32>, k: nat, n: nat, sorted: seq<seq<int32>>)
    requires |input| == k * n
    requires forall i :: 0 <= i < |input| ==> input[i] < INT_MAX
    requires |sorted| == k
    requires forall i :: 0 <= i < k ==> SortedPermutation(sorted[i], Chunks(input, k, n)[i])
    ensures MergeInv(Initial(sorted), n, input)
  {
    var s := Initial(sorted);
    InitialContent(input, k, n, sorted);
    InitialShape(sorted, n);
    SortedBelow(input, k, n, sorted);
    FlattenEmpty(s.blocks);
    assert Flatten(s.blocks) == [];
    CountTrueNone(s.reported);
  }

  /**
    The state the threads share: each worker's run and block, the
    coordinator's buffer, winner and push count, the round counter, the
    done count, and each worker's reported flag.
  */
  class RoundState {
    const k: nat                    // K, the number of workers
    const n: nat                    // N, the capacity of every block
    var runs: seq<seq<int32>>       // per worker, vector_
    var blocks: seq<seq<int32>>     // per worker, vector_sorted_
    const buffer: array<int32>      // g_master_node.buffer_
    var winner: nat                 // g_master_node.thread_index_
    var loopIndex: nat              // g_loop_index
    var pushed: nat                 // g_master_node.pushed_elements_
    var done: nat                   // g_threads_done
    var reported: seq<bool>         // per worker, the negation of node_killed

    /** One run, one block, one slot and one flag per worker. */
    ghost predicate Shaped()
      reads this
    {
      |runs| == k && |blocks| == k && |reported| == k && buffer.Length == k
    }

    /** Between rounds: shaped, and no push pending. */
    ghost predicate Valid()
      reads this
    {
      Shaped() && pushed == 0
    }

    /** The shared state as a value. */
    ghost function State(): Snapshot
      reads this, buffer
    {
      Snapshot(runs, blocks, buffer[..], winner, loopIndex, pushed, done, reported)
    }

    /**
      main cuts the input into the workers' subvectors; the coordinator's
      buffer starts as k zeros, its push count and the counters at zero.
    */
    constructor (k: nat, n: nat, input: seq<int32>)
      requires |input| == k * n
      ensures this.k == k && this.n == n
      ensures Valid() && State() == Initial(Chunks(input, k, n))
      ensures fresh(buffer)
    {
      var chunks: seq<seq<int32>> := [];
      for i := 0 to k
        invariant chunks == Chunks(input, k, n)[..i]
      {
        RangeBounds(i, k, n);
        chunks := chunks + [input[i * n..(i + 1) * n]];
      }
      this.k := k;
      this.n := n;
      runs := chunks;
      blocks := seq(k, _ => []);
      buffer := new int32[k](_ => 0);
      winner := 0;
      loopIndex := 0;
      pushed := 0;
      done := 0;
      reported := seq(k, _ => false);
      new;
      assert buffer[..] == seq(k, _ => 0);
    }

    /** Every worker sorts its own run; the sorted runs are supplied as `sorted`. */
    method SortRuns(sorted: seq<seq<int32>>)
      requires Valid() && |sorted| == k
      requires forall i :: 0 <= i < k ==> SortedPermutation(sorted[i], runs[i])
      modifies this
      ensures Valid() && State() == old(State()).(runs := sorted)
    {
      runs := sorted;
    }

    /**
      Before the writing barrier: each worker computes its mask from the
      counter as it stands, writes the head of its run (or the sentinel) into
      its slot and counts its push.
    */
    method PublishSlots() returns (masks: seq<bool>)
      requires Valid()
      modifies this, buffer
      ensures Shaped() && pushed == k
      ensures |masks| == k && forall t :: 0 <= t < k ==> masks[t] == Mask(t, loopIndex, n)
      ensures buffer[..] == Publish(runs)
      ensures runs == old(runs) && blocks == old(blocks) && reported == old(reported)
      ensures winner == old(winner) && loopIndex == old(loopIndex) && done == old(done)
    {
      masks := [];
      for id := 0 to k
        invariant Shaped() && pushed == id && |masks| == id
        invariant forall t :: 0 <= t < id ==> masks[t] == Mask(t, loopIndex, n) && buffer[t] == Slot(runs[t])
        invariant runs == old(runs) && blocks == old(blocks) && reported == old(reported)
        invariant winner == old(winner) && loopIndex == old(loopIndex) && done == old(done)
      {
        masks := masks + [Mask(id, loopIndex, n)];
        if runs[id] != [] {
          buffer[id] := runs[id][0];
        } else {
          buffer[id] := INT_MAX;
        }
        pushed := pushed + 1;
      }
      assert buffer[..] == Publish(runs);
    }

    /**
      The coordinator, once all k slots are in: the index of the first
      minimum becomes the winner, the minimum is copied to the front slot, the
      push count is reset and the counter advances.
    */
    method SelectMinimum()
      requires Shaped() && k > 0 && pushed == k
      modifies this, buffer
      ensures Valid()
      ensures winner == FirstMin(old(buffer[..])) && buffer[..] == old(buffer[..])[0 := old(buffer[..])[winner]]
      ensures loopIndex == old(loopIndex) + 1
      ensures runs == old(runs) && blocks == old(blocks) && reported == old(reported) && done == old(done)
    {
      var w := MinElement(buffer);
      winner := w;
      buffer[0] := buffer[w];
      pushed := 0;
      loopIndex := loopIndex + 1;
    }

    /**
      Between the barriers: the winner pops its head if its run is not empty,
      and every worker whose mask (computed at counter `index`) is set and
      whose block is not full appends the front slot.
    */
    method PopAndCollect(masks: seq<bool>, ghost index: nat)
      requires Valid() && winner < k
      requires |masks| == k && forall t :: 0 <= t < k ==> masks[t] == Mask(t, index, n)
      modifies this
      ensures Valid()
      ensures runs == old(runs)[old(winner) := PopHead(old(runs)[old(winner)])]
      ensures blocks == Collect(old(blocks), index, n, buffer[0])
      ensures winner == old(winner) && loopIndex == old(loopIndex) && reported == old(reported) && done == old(done)
    {
      ghost var popped := old(runs)[winner := PopHead(old(runs)[winner])];
      ghost var collected := Collect(old(blocks), index, n, buffer[0]);
      for id := 0 to k
        invariant Valid()
        invariant forall t :: 0 <= t < id ==> runs[t] == popped[t] && blocks[t] == collected[t]
        invariant forall t :: id <= t < k ==> runs[t] == old(runs)[t] && blocks[t] == old(blocks)[t]
        invariant winner == old(winner) && loopIndex == old(loopIndex) && reported == old(reported) && done == old(done)
      {
        if runs[id] != [] && id == winner {
          runs := runs[id := runs[id][1..]];
        }
        if |blocks[id]| < n && masks[id] {
          blocks := blocks[id := blocks[id] + [buffer[0]]];
        }
      }
      assert runs == popped && blocks == collected;
    }

    /**
      After the reading barrier: every worker whose run is empty and whose
      block is full, and which has not reported yet, increments the done
      count and marks itself reported.
    */
    method ReportFinished()
      requires Valid()
      modifies this
      ensures Valid()
      ensures reported == Union(old(reported), NewlyFinished(runs, blocks, old(reported), n))
      ensures done == old(done) + CountTrue(NewlyFinished(runs, blocks, old(reported), n))
      ensures runs == old(runs) && blocks == old(blocks) && winner == old(winner) && loopIndex == old(loopIndex)
    {
      ghost var newly := NewlyFinished(runs, blocks, reported, n);
      for id := 0 to k
        invariant Valid()
        invariant forall t :: 0 <= t < id ==> reported[t] == (old(reported)[t] || newly[t])
        invariant forall t :: id <= t < k ==> reported[t] == old(reported)[t]
        invariant done == old(done) + CountTrue(newly[..id])
        invariant runs == old(runs) && blocks == old(blocks) && winner == old(winner) && loopIndex == old(loopIndex)
      {
        assert newly[..id + 1][..id] == newly[..id];
        if runs[id] == [] && |blocks[id]| == n {
          if !reported[id] {
            done := done + 1;
            reported := reported[id := true];
          }
        }
      }
      assert newly[..k] == newly;
      assert reported == Union(old(reported), newly);
    }

    /** One round between the barriers, phase by phase. */
    method Round()
      requires Valid() && k > 0
      modifies this, buffer
      ensures Valid() && State() == Step(old(State()), n)
    {
      ghost var s := State();
      var masks := PublishSlots();
      SelectMinimum();
      PopAndCollect(masks, s.loopIndex);
      ReportFinished();
      assert State() == Step(s, n);
    }

    /**
      The rounds run while the done count is below k; then every run is
      empty, every block full, the counter stands at LastRound(k, n), and
      the blocks concatenate to a sorted permutation of `input`.
    */
    method Run(ghost input: seq<int32>)
      requires Valid() && MergeInv(State(), n, input)
      modifies this, buffer
      ensures Valid() && done == k && loopIndex == LastRound(k, n)
      ensures forall i :: 0 <= i < k ==> runs[i] == [] && |blocks[i]| == n
      ensures SortedPermutation(Flatten(blocks), input)
    {
      while done != k
        invariant Valid() && MergeInv(State(), n, input)
        decreases LastRound(k, n) - loopIndex
      {
        StepPreservesInv(State(), n, input);
        Round();
      }
      FinalState(State(), n, input);
    }
  }

  /**
    The program end to end for k workers and blocks of n: given each
    worker's sorted chunk (what std::sort yields), the merge leaves k full
    blocks that concatenate to a sorted permutation of the input after
    LastRound(k, n) rounds, k * n when n > 0.
  */
  method Merge(k: nat, n: nat, input: seq<int32>, sorted: seq<seq<int32>>) returns (blocks: seq<seq<int32>>, rounds: nat)
    requires |input| == k * n
    requires forall i :: 0 <= i < |input| ==> input[i] < INT_MAX
    requires |sorted| == k
    requires forall i :: 0 <= i < k ==> SortedPermutation(sorted[i], Chunks(input, k, n)[i])
    ensures |blocks| == k && forall i :: 0 <= i < k ==> |blocks[i]| == n
    ensures SortedPermutation(Flatten(blocks), input)
    ensures rounds == LastRound(k, n)
  {
    var state := new RoundState(k, n, input);
    state.SortRuns(sorted);
    InitialInv(input, k, n, sorted);
    assert state.State() == Initial(sorted);
    state.Run(input);
    blocks := state.blocks;
    rounds := state.loopIndex;
  }
}
