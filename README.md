# K-way merge in lock-step rounds

startop-sort sorts K·N integers with K worker threads and one coordinator
thread. `main` cuts the input into K subvectors of N values. Worker `i` sorts
its own subvector (its *run*) and then joins a loop of rounds that two
barriers keep in lock step.

One round goes like this:

1. Every worker computes its *mask* from the round counter `g_loop_index`,
   before the coordinator advances it. The mask is set when round
   `g_loop_index + 1` falls in the worker's range of ranks
   `[i·N + 1, (i+1)·N]`.
2. Every worker publishes into its slot of the coordinator's buffer: the
   head of its run, or `INT_MAX` once the run is empty.
3. Once all K slots are in, the coordinator finds the first smallest slot
   with `std::min_element`. That index becomes the *winner*, the minimum is
   copied into slot 0, and the counter is incremented.
4. The winner pops its head.
5. Every masked worker whose block holds fewer than N values appends the
   minimum from slot 0.
6. A worker whose run is empty and whose block is full increments the done
   count. It does this once only.

The rounds stop when the done count reaches K. Block `i` then holds the
values of ranks `i·N + 1 … (i+1)·N`.

The model has four layers, without the threads:

- `Coordinator` is the first-minimum scan, as a function and as a loop over
  the buffer array.
- `Worker` holds what a worker computes alone: its slot, its pop, its mask
  and its completion test. It also holds the fact that the masks partition
  the rounds.
- `Rounds` has one round as a function `Step` on a value `Snapshot` of the
  whole shared state, and the properties of rounds. The main one is the
  invariant `MergeInv`, which every round keeps. When the done count reaches
  K, it gives that the blocks concatenate to a sorted permutation of the
  input.
- `KWayMerge` has the class `RoundState`, whose fields are the state the
  threads update in place: runs, blocks, the buffer (an array), winner,
  counter, push count, done count and reported flags.
  - Its methods are the phases of a round and the round loop.
  - `Round` is proved to change the state exactly as `Step` does.
  - `Run` loops while the done count is below K and ends in the final state.
  - `Merge` runs the program from end to end.

K and N are parameters rather than the source's `#define`s. Values are
32-bit `int`s (the newtype `int32`).

The code does not reject K = 0 or N = 0, and the model follows it:

- With K = 0 there are no rounds, because the coordinator's loop condition
  `g_threads_done != K` is false at once.
- With N = 0 one round runs. Nothing moves in it, and every worker finds
  itself finished with an empty block. `LastRound(k, n)` is K·N otherwise.

## Model

| member | source | states |
|---|---|---|
| `Coordinator.FirstMin` | main.cpp:157-158 | the selected index's slot is no greater than any slot and strictly smaller than every slot before it (lowest index wins ties) |
| `Coordinator.MinElement` | main.cpp:157-158 | the scan over the buffer array returns exactly the first-minimum index of its contents |
| `Worker.MaskPartition` | main.cpp:76 | for every round before K·N, exactly one worker below K has its mask set: j = loopIndex / N. Every later worker's range begins after the round |
| `Worker.MaskNoneAfter` | main.cpp:76 | once the counter has reached K·N, no worker below K has its mask set |
| `Worker.ClipStep` | main.cpp:102-107 | one more round raises the masked worker's share of handed-out ranks by one; every other worker's share stays the same |
| `Worker.ClipFull` | main.cpp:102 | once all K·N ranks are out, every worker's share is exactly N |
| `Worker.Mask` | main.cpp:76 | the mask of worker `id`, computed from the counter before the coordinator advances it: round `loopIndex + 1` lies in `[id·N + 1, (id+1)·N]` |
| `Worker.Slot` | main.cpp:77-90 | what a worker publishes: the head of its run, or INT_MAX when the run is empty |
| `Worker.PopHead` | main.cpp:94-100 | the winner's pop: it drops the head of a non-empty run and leaves an empty run alone |
| `Worker.Finished` | main.cpp:111 | the completion test: the run is empty and the block holds N values |
| `Rounds.Publish` | main.cpp:77-90 | the buffer after every worker has published: slot i is `Slot` of run i |
| `Rounds.Collect` | main.cpp:102-107 | the blocks after appending: every masked worker whose block holds fewer than N values appends the round's minimum; the other blocks are unchanged |
| `Rounds.NewlyFinished` | main.cpp:111-124 | the workers that report this round: finished after the pop and the append, and not yet reported |
| `Rounds.Step` | main.cpp:76-163 | one round: the counter advances by one and the push count resets. The front slot is the first smallest published slot of the pre-round runs, and the winner is its index. Only the winner's run changes, and it loses its head |
| `Rounds.OneCursorAdvances` | main.cpp:77-100 | with data below the sentinel and some run non-empty, an exhausted worker never wins. The minimum is the winner's head, and exactly that one element leaves the runs |
| `Rounds.BlocksBounded` | main.cpp:102-107 | blocks stay within N, and a block changes only in its worker's masked round, below capacity, by appending the round's minimum |
| `Rounds.ReportOnce` | main.cpp:111-124 | reported flags never go back. A worker reports only when it is finished. The done count grows by exactly the number of new reports |
| `Rounds.SentinelLivelock` | main.cpp:80-98 | with a genuine INT_MAX in a run (K = 2, N = 1), the exhausted worker 0 ties with it and keeps winning. From then on a round changes only the counter, so the done count stays below K forever |
| `Rounds.RoundMinimum` | main.cpp:157-159 | while the runs hold data, the round's minimum is the winner's head and no greater than any value left in any run |
| `Rounds.CollectOne` | main.cpp:102-107 | when block sizes follow the rank and one worker is masked, only that worker appends, its block was below capacity, and all later blocks are empty |
| `Rounds.RoundBlocks` | main.cpp:102-107 | in a round before the last, exactly the masked worker's block grows, by the minimum. Every block's size then follows the advanced rank |
| `Rounds.KeepsOrder` | main.cpp:94-107 | appending the smallest remaining value extends the concatenated blocks at the end. The blocks stay sorted and dominated by the runs |
| `Rounds.KeepsContent` | main.cpp:94-107 | popping the winner's head and appending it to a block keeps the multiset of runs plus blocks equal to the input |
| `Rounds.KeepsShape` | main.cpp:102-107 | a round before the last keeps the size invariant: counter within the last round, block sizes per rank, values counted |
| `Rounds.FinishedStay` | main.cpp:111-124 | a worker that has reported is neither the winner nor the appending worker, so it stays finished |
| `Rounds.KeepsReports` | main.cpp:111-124 | the done count keeps counting the reported workers, and "reported" keeps meaning "finished" |
| `Rounds.ProductiveRound` | main.cpp:94-107 | in a round before K·N, every value already in the blocks is at most the round's minimum, so round minima never decrease. The minimum is appended at the end of the concatenated blocks, and the merge invariant is kept |
| `Rounds.IdleStart` | main.cpp:102-124 | with N = 0 the invariant leaves only the first round unreported: every run and block is empty |
| `Rounds.IdleStep` | main.cpp:102-124 | a round on empty runs with N = 0 moves nothing, and every worker reports |
| `Rounds.IdleRound` | main.cpp:102-124 | with N = 0 the first round reports all K workers at once and keeps the invariant |
| `Rounds.DoneAtLastRound` | main.cpp:111-127 | once the counter reaches K·N with N > 0, all K workers have reported |
| `Rounds.StepPreservesInv` | main.cpp:74-131 | while the done count is below K, a round keeps the merge invariant |
| `Rounds.FinalCounter` | main.cpp:152-163 | the counter arithmetic at the end: the counter equals LastRound(K, N) |
| `Rounds.FinalState` | main.cpp:127-129 | when the done count is K: the counter is LastRound(K, N), every run is empty, every block holds N values, and the blocks concatenate to a sorted permutation of the input |
| `KWayMerge.Chunk` | main.cpp:184 | a worker's subvector holds N values |
| `KWayMerge.Chunks` | main.cpp:182-186 | main hands out K subvectors of N values each |
| `KWayMerge.ChunkValue` | main.cpp:184 | value t of chunk i is input value i·N + t |
| `KWayMerge.ChunksPrefix` | main.cpp:182-186 | the first K-1 chunks are the chunks of the first (K-1)·N values, and the last chunk is the rest |
| `KWayMerge.ChunksFlatten` | main.cpp:182-186 | the chunks concatenate back to the input |
| `KWayMerge.Initial` | main.cpp:30-53 | the state before round one: the workers hold their runs, blocks are empty, the buffer holds K zeros (`resize(K)`), winner, counter, push count and done count are 0, nobody has reported |
| `KWayMerge.SentinelChunks` | main.cpp:182-186 | on input [INT_MAX, INT_MAX] with K = 2, N = 1, each worker gets one INT_MAX |
| `KWayMerge.SentinelStart` | main.cpp:76-124 | on input [INT_MAX, INT_MAX] with K = 2, N = 1, the first round takes worker 0's value into block 0 and worker 0 reports |
| `KWayMerge.SentinelReached` | main.cpp:76-163 | on that input the state after two rounds is the livelock state of `Rounds.SentinelLivelock` |
| `KWayMerge.SortedBelow` | main.cpp:72 | sorting a chunk of an input below the sentinel keeps every run below the sentinel |
| `KWayMerge.InitialShape` | main.cpp:30-53 | before round one, with empty blocks and zero counters, the size invariant holds at rank 0 |
| `KWayMerge.InitialContent` | main.cpp:72 | the sorted runs hold exactly the input, K·N values |
| `KWayMerge.InitialInv` | main.cpp:72-73 | with every run a sorted permutation of its chunk and every value below INT_MAX, the state before round one satisfies the merge invariant |
| `KWayMerge.RoundState.constructor` | main.cpp:182-186 | the shared state starts with the K subvectors as runs, empty blocks, a buffer of K zeros, zero counters and nobody reported |
| `KWayMerge.RoundState.SortRuns` | main.cpp:72 | every worker's run becomes its supplied sorted permutation, and nothing else changes |
| `KWayMerge.RoundState.PublishSlots` | main.cpp:76-90 | every worker's mask is computed from the unadvanced counter, every slot holds its run's head or INT_MAX, and the push count reaches K |
| `KWayMerge.RoundState.SelectMinimum` | main.cpp:154-163 | the winner is the first minimum of the buffer, the minimum overwrites slot 0, the push count resets, and the counter advances by one |
| `KWayMerge.RoundState.PopAndCollect` | main.cpp:94-107 | the winner's run loses its head if it had one. Each masked worker with a block below N appends slot 0, and nothing else changes |
| `KWayMerge.RoundState.ReportFinished` | main.cpp:111-124 | each finished and not yet reported worker sets its flag and adds one to the done count |
| `KWayMerge.RoundState.Round` | main.cpp:74-131 | the four phases in order change the shared state exactly as `Rounds.Step` does |
| `KWayMerge.RoundState.Run` | main.cpp:152-166 | rounds run while the done count is below K. At the end the done count is K, the counter is LastRound(K, N), every run is empty, every block is full, and the blocks concatenate to a sorted permutation of the input |
| `KWayMerge.Merge` | main.cpp:171-192 | for every input of K·N values below INT_MAX: K blocks of N values whose concatenation is sorted and a permutation of the input, after LastRound(K, N) rounds |

## Left out

- Threads, `std::thread` creation and `join` (main.cpp:181-192): the barriers fix the order of the phases, and the model runs the phases in that order, one worker after another.
- The mutexes (main.cpp:43-47) and the two `utilities::Barrier`s (main.cpp:56-57): utilities.h is not part of this model. Their effect is the phase ordering above.
- The coordinator's busy-poll on the push count (main.cpp:152-154): the model runs the coordinator once all K pushes are in, which is the only time the poll lets it through.
- Data races on the shared counters and on `thread_index_` between barriers, and the workers' unsynchronised read of `g_threads_done` at main.cpp:127.
- `std::exit(0)` (main.cpp:129): the round loop ends when the done count is K.
- Console output (main.cpp:116-120, 177-178).
- `utilities::generateRandomVector` (main.cpp:174): the input is a parameter.
- `std::sort` (main.cpp:72): a library call. Its result enters as a parameter that must be a sorted permutation of the chunk. Sorting itself is not verified.
- `g_sorted_vector` (main.cpp:24), which nothing uses, and `running_nodes_` (main.cpp:38), which nothing reads.
- `thread_index_` is uninitialised before the first round in the source. The model starts it at 0, and nothing reads it before round one sets it.
- `std::size_t` wrap-around of `thread_id_ * N`, `g_loop_index + 1` and the counters: all are unbounded naturals here.
- `Chunk` takes the half-open slice `input[i·N .. (i+1)·N]`. At main.cpp:184 the code builds it from `&workers[(i + 1) * N]`, which for i = K-1 indexes one past the end. That is undefined behaviour in C++, and the model assumes it yields the end pointer, as it does in practice.
- KWayMerge.Merge and KWayMerge.RoundState.Run: `Merge` requires every input value to be below INT_MAX. The source accepts INT_MAX, but then an exhausted worker can tie with a real INT_MAX and keep winning. `RoundState.Run` excludes the same case, since its `MergeInv` requirement includes `BelowSentinel`. `KWayMerge.SentinelReached` and `Rounds.SentinelLivelock` show the input [INT_MAX, INT_MAX] reaching a state from which the rounds never finish.
