# Verified models of the course repository's algorithms

Six independent pieces of the repository, as Dafny programs with proofs. Where the original changes
state in place, so does the model: a class or a loop, proved against functions on values; the laws are
then lemmas about those functions.

| files | what they model |
|---|---|
| `Tiles`, `TileRows`, `TileGrids`, `GameRuns`, `Board` | the 2048 board: slides and merges, spawns, score, game over, whole games |
| `FlowNetworks`, `GreedyRoutes`, `ReturnWalks`, `FlowPaths` | decomposing a unit-capacity flow on a multigraph into arc-disjoint routes by greedy walks |
| `Barrier`, `BarrierTraces` | the ready/go barrier of N threads with one mutex and one semaphore, under every interleaving |
| `CacheAddress`, `CacheHistory`, `CacheModel`, `Cache`, `Transpose` | the direct-mapped write-through cache, and the matrix transpose that runs through it |
| `Reciprocal` | unsigned division by multiplication with a rounded-up reciprocal |
| `StringArray`, `Tokenizer` | the growable null-terminated string array, and splitting a command line into tokens |
| `SineTable`, `Waveform`, `WaveformValues` | the phase-accumulator waveform generator with its quarter-wave sine table |

`PowersOfTwo`, `Products` and `Options` hold what several of them share. `dafny verify dfyconfig.toml`
checks the whole project.

## Results

- **2048.** In every game, with any keys and any spawned tiles, all tiles are powers of two from 2 to
  2^17, the tile sum never passes 2^18 - 4 (a sum of m powers of two has at most m one-bits, and a spawn
  needs an empty cell), and the score is the sum of (k-1)·2^k over the tiles 2^k less 4 for each 4-tile
  spawned. A game has at most 131068 turns that change the board. The game-over test is exact on every
  board with a tile. The in-place merge loop computes the one leftmost pairing of the tiles.
- **Flow paths.** For every unit-capacity flow conserved between two distinct nodes, and whatever the
  order in which the arcs are numbered, the loop ends with arc-disjoint source-to-sink walks, at least as
  many as the flow value. `ExactIffNoReturn`: it ends with exactly as many in every order of the arcs if
  and only if no flow-carrying walk leads back from the sink to the source. With such a walk there are
  arc-disjoint routes for one unit more, and some order of the arcs makes the loop find them; another
  order may still find only the flow value (`OrderMatters`). An optimal flow, which is what the lab asks
  of its solver, has no such walk, nor has a flow of which nothing enters the source or nothing leaves
  the sink. No family of arc-disjoint walks is larger than an optimal flow, so the routes found are then
  a maximum. With equal source and sink the original loops for ever, so the two nodes are required to
  differ.
- **Barrier.** For every N and every interleaving no thread goes before all N were ready, every schedule
  is finite, and it can stop only with all threads done, N posts made by one thread, an empty semaphore,
  and both objects destroyed after their last use; and every run can be continued to that end. Seen from
  outside, every trace is legal for a POSIX mutex and semaphore, and every thread does what its code says
  in that order.
- **Cache.** Every program of loads and stores sees and leaves the memory of direct access. Hits and
  evictions are characterised by the most recent access to the same line; misses minus evictions is the
  number of lines in use. The accesses of a program are the slots of its addresses in order, so its hits
  and evictions follow from its address sequence alone. The transpose is correct through any such cache,
  with exactly a load and a store per entry.
- **Reciprocal.** The exact condition for each pair, and the divisors that are right for *every* 32-bit
  numerator: those that divide 2^32 or 2^32 + 1. The divisor 1 is never one of them, because its
  reciprocal 2^32 is truncated to 0. The powers of two from 2 on always are.
- **Tokenizer.** The tokens are exactly the maximal non-whitespace runs that whitespace follows.
  The header (`shell.h:65-71`) promises to split the line by whitespace; the code drops an unterminated last
  word. `AllWordsIffTerminated` proves that it returns all words exactly when the line is empty or ends
  in whitespace.
- **Waveform.** The sine sample is read one clock late while its sign is not; `SkewHarmlessIff` says
  exactly when this is harmless, and it always is here because the table starts at 0 and the phase moves
  at most one step a clock. The number of cycles in any run of clocks at one setting is exact: in a
  second of 12 million clocks 999 or 1000, 1999 or 2000, 5000 or 5001, and 9997 or 9998. So the setting
  documented as 10 kHz (`top.sv:31`) never makes 10000 cycles a second.

## Model

| member | source | states |
|---|---|---|
| TileRows.LeftmostPairingExists | advanced-algorithms/lab-assignments/03-heuristics/game.py:58-63 | every row of tiles splits, in order, into single tiles and equal pairs, taken leftmost first, so no tile merges twice |
| TileRows.MergeByLeftmostPairing | advanced-algorithms/lab-assignments/03-heuristics/game.py:58-64 | any leftmost pairing determines the merged row and the points, one doubled tile per pair |
| TileRows.MergeConservesSum | advanced-algorithms/lab-assignments/03-heuristics/game.py:58-64 | merging conserves the sum of the tiles for rows of any length and any entries |
| TileRows.SlideByPairing | advanced-algorithms/lab-assignments/03-heuristics/game.py:54-64 | a left move of a row takes its tiles from left to right, in order and all of them; single tiles and doubled leftmost pairs fill its first cells, the pairs give the points, the rest is empty |
| TileRows.SlideLegal | advanced-algorithms/lab-assignments/03-heuristics/game.py:54-64 | a left move keeps tiles powers of two and scores exactly the worth it creates |
| TileRows.SlideFixed | advanced-algorithms/lab-assignments/03-heuristics/game.py:54-64 | a row is unchanged iff its zeros are last and no two equal tiles touch, and then it scores nothing |
| TileRows.SlideLeavesRoom | advanced-algorithms/lab-assignments/03-heuristics/game.py:54-64 | a row that changes has an empty cell afterwards |
| TileRows.BitsBoundedByTiles | advanced-algorithms/lab-assignments/03-heuristics/game.py:45-48 | the sum of m legal tiles has at most m one-bits |
| Tiles.WorthOfPow2 | advanced-algorithms/lab-assignments/03-heuristics/game.py:60-62 | the worth of the tile 2^(k+1) is k·2^(k+1) |
| TileGrids.MoveConservesSum | advanced-algorithms/lab-assignments/03-heuristics/game.py:50-98 | a move in any direction conserves the sum of all sixteen cells |
| TileGrids.MoveScoresWorth | advanced-algorithms/lab-assignments/03-heuristics/game.py:50-98 | a move in any direction keeps the board legal and adds to the score the worth it creates |
| TileGrids.UpByColumns | advanced-algorithms/lab-assignments/03-heuristics/game.py:82-89 | the up move slides every column towards row 0 and scores what the columns score |
| TileGrids.DownByColumns | advanced-algorithms/lab-assignments/03-heuristics/game.py:91-98 | the down move slides every column towards row 3 and scores what the columns score |
| TileGrids.MoveFixed | advanced-algorithms/lab-assignments/03-heuristics/game.py:50-98 | a direction changes nothing iff the turned board is stuck, and then the score stays |
| TileGrids.ChangedHasEmpty | advanced-algorithms/lab-assignments/03-heuristics/game.py:159-161 | a board that a move changed has an empty cell for the new tile |
| TileGrids.GameOverIffStuck | advanced-algorithms/lab-assignments/03-heuristics/game.py:124-141 | moves remain iff some direction changes the board, except on the empty board |
| GameRuns.SpawnKeepsInvariant | advanced-algorithms/lab-assignments/03-heuristics/game.py:28-48 | a spawn keeps the game invariant and raises the sum by 2 or 4 when there is an empty cell |
| GameRuns.InitialInvariant | advanced-algorithms/lab-assignments/03-heuristics/game.py:12-16 | a new game satisfies the invariant and has exactly two tiles, with a sum of at least 4, and no points |
| GameRuns.TurnKeepsInvariant | advanced-algorithms/lab-assignments/03-heuristics/game.py:143-162 | a turn keeps the invariant and either changes nothing at all or raises the sum by exactly 2 or 4 |
| GameRuns.TurnByKey | advanced-algorithms/lab-assignments/03-heuristics/game.py:100-162 | each key slides the rows or columns in its own direction with their points, any other string does nothing; a board that comes out the same stays, otherwise one empty cell gets a 2 or a 4 |
| GameRuns.GameInvariant | advanced-algorithms/lab-assignments/03-heuristics/game.py:12-162 | at every moment of every game: legal tiles up to 131072, tile sum from 4 to 2^18 - 4, the score law, and a bounded score |
| GameRuns.GameLength | advanced-algorithms/lab-assignments/03-heuristics/game.py:143-162 | every game has at most 131068 turns that change the board |
| GameRuns.GameOverExact | advanced-algorithms/lab-assignments/03-heuristics/game.py:124-141 | in every game the game-over test answers no iff no direction changes the board |
| BoardClass.MergeStep | advanced-algorithms/lab-assignments/03-heuristics/game.py:59-63 | one step of the zero-and-double loop keeps: what is settled plus the merge of the rest is the merge of the row, score included |
| BoardClass.Board.MergeRow | advanced-algorithms/lab-assignments/03-heuristics/game.py:58-64 | the in-place loop leaves the merged row, and adds its points, for rows of any length |
| BoardClass.Board.constructor | advanced-algorithms/lab-assignments/03-heuristics/game.py:12-16 | a new board is an initial state of a game |
| BoardClass.Board.Copy | advanced-algorithms/lab-assignments/03-heuristics/game.py:18-25 | a copy has the same cells and score in cells of its own |
| BoardClass.Board.EmptyTiles | advanced-algorithms/lab-assignments/03-heuristics/game.py:34-39 | the list holds the coordinates of exactly the empty cells |
| BoardClass.Board.AddRandomTile | advanced-algorithms/lab-assignments/03-heuristics/game.py:28-48 | a 2 or a 4 appears in an empty cell and nothing else changes; a full board stays |
| BoardClass.Board.LeftPressed | advanced-algorithms/lab-assignments/03-heuristics/game.py:50-64 | the row loop makes the left move of the whole board and adds its points |
| BoardClass.Board.RightPressed | advanced-algorithms/lab-assignments/03-heuristics/game.py:66-80 | the right move is the left move of the mirrored board, mirrored back, points included |
| BoardClass.Board.UpPressed | advanced-algorithms/lab-assignments/03-heuristics/game.py:82-89 | the up move is the left move of the transposed board, transposed back, points included |
| BoardClass.Board.DownPressed | advanced-algorithms/lab-assignments/03-heuristics/game.py:91-98 | the down move is the right move of the transposed board, transposed back, points included |
| BoardClass.Board.Move | advanced-algorithms/lab-assignments/03-heuristics/game.py:100-122 | w, a, s and d slide the columns up, the rows left, the columns down and the rows right, with the points of those lines; any other string is refused and changes nothing |
| BoardClass.Board.HasValidMoves | advanced-algorithms/lab-assignments/03-heuristics/game.py:124-141 | the answer is true iff a cell is empty or two neighbours are equal |
| BoardClass.Board.PlayTurn | advanced-algorithms/lab-assignments/03-heuristics/game.py:143-162 | one turn of the game: the move, and a spawn iff the board changed |
| FlowNetworks.SinkReceivesValue | advanced-algorithms/lab-assignments/00-network-flows/00-network-flows.ipynb:235-236 | in a conserved flow the sink receives the net outflow of the source |
| FlowNetworks.UseArc | advanced-algorithms/lab-assignments/00-network-flows/00-network-flows.ipynb:268-270 | using an arc moves one unit of net outflow from its tail to its head |
| GreedyRoutes.StuckOnlyAtSource | advanced-algorithms/lab-assignments/00-network-flows/00-network-flows.ipynb:266-275 | a walk from the source can get stuck only at the source, once the whole flow value is routed |
| GreedyRoutes.NeverStuckOnceLeft | advanced-algorithms/lab-assignments/00-network-flows/00-network-flows.ipynb:266-275 | when no flow enters the source, a walk that left it ends at the sink |
| GreedyRoutes.WalkFacts | advanced-algorithms/lab-assignments/00-network-flows/00-network-flows.ipynb:262-275 | the walk of one call uses distinct unused flow-carrying arcs and ends at the sink or where no arc can be taken |
| GreedyRoutes.NeverTooMany | advanced-algorithms/lab-assignments/00-network-flows/00-network-flows.ipynb:306-311 | unless flow leads back from the sink to the source, no more than the flow value is ever routed |
| GreedyRoutes.RouteCounts | advanced-algorithms/lab-assignments/00-network-flows/00-network-flows.ipynb:306-309 | each route takes one unit of the flow value, and never one too many unless flow leads back |
| GreedyRoutes.FoundCount | advanced-algorithms/lab-assignments/00-network-flows/00-network-flows.ipynb:306-311 | in every order of the arcs the routes number at least the flow value, and exactly it unless flow leads back |
| GreedyRoutes.FoundBundle | advanced-algorithms/lab-assignments/00-network-flows/00-network-flows.ipynb:306-311 | the walks collected lead from source to sink and share no arc |
| ReturnWalks.CancelReturn | advanced-algorithms/lab-assignments/00-network-flows/00-network-flows.ipynb:235-236 | taking away a walk from the sink back to the source leaves a flow of one unit more |
| ReturnWalks.OptimalHasNoReturn | advanced-algorithms/lab-assignments/00-network-flows/00-network-flows.ipynb:196-211 | an optimal flow has no walk from the sink back to the source |
| ReturnWalks.ExtraRoute | advanced-algorithms/lab-assignments/00-network-flows/00-network-flows.ipynb:306-311 | when flow leads back there are arc-disjoint routes for one unit more than the flow value |
| ReturnWalks.FollowTrail | advanced-algorithms/lab-assignments/00-network-flows/00-network-flows.ipynb:267-272 | when the arcs of a trail come next in the order, the walk follows it |
| ReturnWalks.MoreInSomeOrder | advanced-algorithms/lab-assignments/00-network-flows/00-network-flows.ipynb:306-311 | when flow leads back, some order of the arcs makes the loop find more routes than the flow value |
| ReturnWalks.ExactIffNoReturn | advanced-algorithms/lab-assignments/00-network-flows/00-network-flows.ipynb:306-311 | the loop finds exactly the flow value of routes in every order of the arcs iff no flow leads back from the sink to the source |
| ReturnWalks.OrderMatters | advanced-algorithms/lab-assignments/00-network-flows/00-network-flows.ipynb:265-272 | one flow of value 0 for which one order finds no route and another finds one |
| FlowPaths.WalksFlow | advanced-algorithms/lab-assignments/00-network-flows/00-network-flows.ipynb:163-169 | k arc-disjoint source-to-sink walks laid over each other are a flow of value k |
| FlowPaths.WalksAtMostOptimal | advanced-algorithms/lab-assignments/00-network-flows/00-network-flows.ipynb:163-169 | no family of arc-disjoint source-to-sink walks is larger than the value of an optimal flow |
| FlowPaths.PathFinder.FirstUsable | advanced-algorithms/lab-assignments/00-network-flows/00-network-flows.ipynb:267-274 | the scan stops at the first arc in the order that is unused, starts here and carries flow |
| FlowPaths.PathFinder.FindPath | advanced-algorithms/lab-assignments/00-network-flows/00-network-flows.ipynb:260-275 | the greedy walk for this order of the arcs, its arcs all marked used; None exactly when it is stuck before the sink |
| FlowPaths.PathFinder.CollectPaths | advanced-algorithms/lab-assignments/00-network-flows/00-network-flows.ipynb:303-311 | the loop ends with the routes of this order of the arcs, arc-disjoint, at least the flow value of them, and exactly that many unless flow leads back |
| Barrier.GoMeansAllCounted | softsys/assignments/09-concurrency/src/weave.c:16-26 | a thread past the semaphore implies that every thread has counted itself and left the test |
| Barrier.LastTester | softsys/assignments/09-concurrency/src/weave.c:16-22 | a thread at the test finds the count complete iff it is the only one that is not past it |
| Barrier.StepKeepsInv | softsys/assignments/09-concurrency/src/weave.c:12-60 | every step of every thread keeps mutual exclusion, the counts, the single poster and the trace law |
| Barrier.StepDecreases | softsys/assignments/09-concurrency/src/weave.c:12-60 | every step lowers a natural-number measure |
| Barrier.SomeStepEnabled | softsys/assignments/09-concurrency/src/weave.c:12-60 | until main has finished some step is enabled |
| Barrier.RunIsStepByStep | softsys/assignments/09-concurrency/src/weave.c:12-60 | a schedule runs to a state iff a sequence of states leads there by one step of each of its actors |
| Barrier.ThreadBlockedIff | softsys/assignments/09-concurrency/src/weave.c:12-29 | a created, unfinished thread is blocked only at a held mutex or a zero semaphore |
| Barrier.MainBlockedIff | softsys/assignments/09-concurrency/src/weave.c:42-57 | the main thread is blocked only while the thread it joins is not done |
| Barrier.BarrierHolds | softsys/assignments/09-concurrency/src/weave.c:12-29 | for every N and interleaving, each go comes after all N readys, and each thread does either at most once |
| Barrier.EveryScheduleFinishes | softsys/assignments/09-concurrency/src/weave.c:12-60 | every schedule is finite and ends exactly where all is done: N posts by one thread, semaphore 0, mutex free, both destroyed |
| Barrier.EveryRunCompletes | softsys/assignments/09-concurrency/src/weave.c:12-60 | every run of every number of threads can be continued until everything is done |
| BarrierTraces.EveryTraceLegal | softsys/assignments/09-concurrency/src/weave.c:12-57 | every trace is legal for a POSIX mutex and semaphore: mutual exclusion, no wait on zero, no use after destruction |
| BarrierTraces.ThreadsFollowProgram | softsys/assignments/09-concurrency/src/weave.c:12-29 | what a thread has done is always a beginning of ready, lock, n posts or none, unlock, wait, go |
| BarrierTraces.CompleteProgram | softsys/assignments/09-concurrency/src/weave.c:12-29 | at the end every thread has done its whole program, and exactly one of them has posted |
| Barrier.DestroyedAfterLastUse | softsys/assignments/09-concurrency/src/weave.c:52-57 | from the destruction of the mutex on, nobody holds it and no thread takes another step |
| CacheAddress.MaskIsRemainder | softsys/assignments/06-latency-caching/src/cache.c:58-61 | the bitwise and with 2^k - 1 is the remainder by 2^k |
| CacheAddress.PartsOfAddress | softsys/assignments/06-latency-caching/src/cache.c:51-79 | the shifts and masks compute tag, line index and line offset, each in its range |
| CacheAddress.PartsByBits | softsys/assignments/06-latency-caching/src/cache.c:51-79 | the offset is the low offset bits, the index the next index bits, the tag the rest |
| CacheAddress.AddressRebuilt | softsys/assignments/06-latency-caching/src/cache.c:51-79 | an address is rebuilt from its tag, index and offset |
| CacheAddress.PartsRebuilt | softsys/assignments/06-latency-caching/src/cache.c:51-79 | every combination of parts in range is the split of an address, so the split is a bijection |
| CacheHistory.HitsAndEvictions | softsys/assignments/06-latency-caching/src/cache.c:93-110 | an access is a hit iff the most recent earlier one to its line had its tag, an eviction iff that one had another tag |
| CacheHistory.HitsAreRepeats | softsys/assignments/06-latency-caching/src/cache.c:93-110 | the hits of a history are the accesses that repeat the last access to their line, the evictions those that replace another tag |
| CacheHistory.CounterLaw | softsys/assignments/06-latency-caching/src/cache.c:97-107 | accesses minus hits minus evictions is the number of lines ever touched |
| CacheHistory.LinesInUse | softsys/assignments/06-latency-caching/src/cache.c:97-107 | the number of lines in use never decreases and never exceeds the number of lines |
| CacheModel.AccessedCoherent | softsys/assignments/06-latency-caching/src/cache.c:93-117 | an access keeps every line a copy of the block of its last access, and the counters equal to the history's |
| CacheModel.BlockAfterStore | softsys/assignments/06-latency-caching/src/cache.c:126-135 | a store changes one block, at the offset of its address, and no other |
| CacheModel.WrittenCoherent | softsys/assignments/06-latency-caching/src/cache.c:126-135 | writing the line and memory together keeps coherence |
| CacheModel.ByteInBlock | softsys/assignments/06-latency-caching/src/cache.c:111-123 | the byte at the line offset of a block is the byte at the address |
| CacheModel.CoherentCounters | softsys/assignments/06-latency-caching/src/cache.c:28-38 | hits plus misses is the number of accesses; misses minus evictions is the number of valid lines |
| CacheModel.CacheIsTransparent | softsys/assignments/06-latency-caching/src/cache.c:119-135 | any program of loads and stores gets the bytes and leaves the memory of direct access |
| CacheModel.ProgramHistory | softsys/assignments/06-latency-caching/src/cache.c:93-135 | a program accesses the slots of its addresses in order, and its hits and evictions are those of that sequence |
| CacheClass.Cache.constructor | softsys/assignments/06-latency-caching/src/cache.c:22-41 | a new cache has no valid line and zero counters |
| CacheClass.Cache.Access | softsys/assignments/06-latency-caching/src/cache.c:93-117 | lines and counters change exactly as the value-level access says |
| CacheClass.Cache.Load | softsys/assignments/06-latency-caching/src/cache.c:119-124 | the byte loaded is the byte in memory, and the cache stays coherent |
| CacheClass.Cache.Store | softsys/assignments/06-latency-caching/src/cache.c:126-135 | memory changes at the one address, and the cache stays coherent |
| CacheClass.RunProgram | softsys/assignments/06-latency-caching/src/cache.c:119-135 | a sequence of calls returns the bytes and leaves the memory of direct access, and accesses the slots of its addresses |
| TransposeThroughCache.EntriesDistinct | softsys/assignments/06-latency-caching/src/transpose.c:30-34 | row and column determine the address of an entry |
| TransposeThroughCache.TransposedEntry | softsys/assignments/06-latency-caching/src/transpose.c:30-61 | in plain addresses: after the transpose the byte at dst + c·height + r is the byte that was at src + r·width + c, and bytes outside the destination are unchanged |
| TransposeThroughCache.AreTransposesEntry | softsys/assignments/06-latency-caching/src/transpose.c:30-47 | in plain addresses: where the check says 1 the bytes at rhs + c·height + r and lhs + r·width + c agree |
| TransposeThroughCache.MismatchExists | softsys/assignments/06-latency-caching/src/transpose.c:36-47 | where the check says 0 some two such bytes differ |
| TransposeThroughCache.NextEntry | softsys/assignments/06-latency-caching/src/transpose.c:51-60 | copying one more entry keeps the finished ones and everything outside the destination |
| TransposeThroughCache.EntryAccesses | softsys/assignments/06-latency-caching/src/transpose.c:51-60 | the accesses run row by row through the source: before an entry those of the earlier ones, then its load and its store |
| TransposeThroughCache.TransposeRef | softsys/assignments/06-latency-caching/src/transpose.c:49-61 | the destination becomes the transpose, nothing else changes, and the accesses are a load and a store for each of the height·width entries |
| TransposeThroughCache.IsTranspose | softsys/assignments/06-latency-caching/src/transpose.c:36-47 | 1 iff every entry matches its mirror entry, else 0 |
| TransposeThroughCache.TransposedMatches | softsys/assignments/06-latency-caching/src/transpose.c:36-61 | after the copy the untouched source and the destination are transposes of each other |
| TransposeThroughCache.RunTest | softsys/assignments/06-latency-caching/src/run_transpose.c:6-28 | a fresh cache, the transpose and the check: the answer is 1, and the counters are those of the transpose's address sequence and obey their laws |
| Reciprocal.ExcessRange | softsys/class-sessions/10-debugging-gdb/src/mystery.c:5-9 | for k >= 2 the reciprocal is not truncated and k times it overshoots 2^32 by less than k |
| Reciprocal.QuotientOrOneMore | softsys/class-sessions/10-debugging-gdb/src/mystery.c:11-19 | the result is the quotient or one more, and the quotient iff remainder and excess do not carry |
| Reciprocal.ExactWhenSmall | softsys/class-sessions/10-debugging-gdb/src/mystery.c:16-19 | the result is the quotient whenever n(k-1) < 2^32 |
| Reciprocal.WrongAtHardest | softsys/class-sessions/10-debugging-gdb/src/mystery.c:16-19 | an excess of 2 or more makes the largest numerator with remainder k-1 come out one too big |
| Reciprocal.ExactWhenTight | softsys/class-sessions/10-debugging-gdb/src/mystery.c:16-19 | an excess of 0 or 1 is exact for every numerator |
| Reciprocal.ExactDivisors | softsys/class-sessions/10-debugging-gdb/src/mystery.c:5-19 | a divisor is exact for every 32-bit numerator iff it divides 2^32 or 2^32 + 1 and is not 1 |
| Reciprocal.ExactPowersOfTwo | softsys/class-sessions/10-debugging-gdb/src/mystery.c:5-19 | every power of two from 2 on divides exactly |
| Reciprocal.DivisorOne | softsys/class-sessions/10-debugging-gdb/src/mystery.c:5-9 | for k = 1 the truncated reciprocal makes every result 0, right only for n = 0 |
| StringArrayClass.GrowthIsAmortised | softsys/assignments/07-syscalls-ipc/src/string_array.c:46-66 | n additions leave a capacity of at most max(initial, 2n) and move at most 2n strings |
| StringArrayClass.CapacityByDoubling | softsys/assignments/07-syscalls-ipc/src/string_array.c:46-50 | n additions leave the initial capacity while it suffices, and then the first of its doublings (of 1, if it was 0) that does |
| StringArrayClass.DoubledIsProduct | softsys/assignments/07-syscalls-ipc/src/string_array.c:48 | k doublings multiply the initial capacity, or 1 for an empty array, by 2^k |
| StringArrayClass.StringArray.constructor | softsys/assignments/07-syscalls-ipc/src/string_array.c:13-21 | an empty array of the given capacity with its sentinel |
| StringArrayClass.StringArray.Resize | softsys/assignments/07-syscalls-ipc/src/string_array.c:33-44 | the capacity is the new one, the strings beyond it are dropped, the others kept, the sentinel in place |
| StringArrayClass.StringArray.CopyText | softsys/assignments/07-syscalls-ipc/src/string_array.c:50-62 | the new buffer holds the string up to its first null character or its first n characters |
| StringArrayClass.StringArray.AddString | softsys/assignments/07-syscalls-ipc/src/string_array.c:46-66 | the copy is appended before the sentinel, and a full array doubles first |
| Tokenizer.TokensAreTerminatedRuns | softsys/assignments/07-syscalls-ipc/src/shell.c:83-105 | the tokens are, in order, exactly the maximal non-whitespace runs that whitespace follows |
| Tokenizer.RoundTrip | softsys/assignments/07-syscalls-ipc/src/shell.c:83-105 | tokens joined with whitespace come back, and an unterminated run after them is dropped |
| Tokenizer.AllWordsIffTerminated | softsys/assignments/07-syscalls-ipc/src/shell.h:65-76 | all words of the line are returned iff it is empty or ends in whitespace; otherwise all but the last |
| Tokenizer.UnterminatedWordIsLost | softsys/assignments/07-syscalls-ipc/src/shell.c:87-104 | the line "ls" without a newline yields no token |
| Tokenizer.WordsSeparated | softsys/assignments/07-syscalls-ipc/src/shell.c:88 | two words come back as two tokens iff the character between them is space, tab, line feed, vertical tab, form feed or carriage return; otherwise as one |
| Tokenizer.ScanStep | softsys/assignments/07-syscalls-ipc/src/shell.c:87-103 | one iteration of the loop advances the scan by one character |
| Tokenizer.TokenizeLine | softsys/assignments/07-syscalls-ipc/src/shell.c:83-105 | the array holds exactly the tokens of the line up to its null character, at the cost of that many additions; two words are split iff one of the six separators stands between them |
| Tokenizer.TokenizerCost | softsys/assignments/07-syscalls-ipc/src/shell.c:84-92 | its capacity is 8 or at most twice the number of tokens, and at most two moves were made per token |
| SineTable.SamplesAreQuarterWave | computer-architecture/miniproject03++/sine_quarter.txt:1-128 | the table has 128 9-bit samples, starts at 0 and climbs by at most 7 |
| Waveform.SkewHarmlessIff | computer-architecture/miniproject03++/sine_gen.sv:14-34 | a sample read at one phase and signed at another is right iff the phases share a half or the sample is 0 |
| Waveform.SineIsDelayedWave | computer-architecture/miniproject03++/memory_quarter.sv:20-22 | after any clock from any state the sine output is the full wave at the phase before it |
| Waveform.FullWaveSteps | computer-architecture/miniproject03++/sine_gen.sv:14-34 | neighbouring points of the 512-point wave differ by at most 7, around the wrap too |
| Waveform.TriangleSteps | computer-architecture/miniproject03++/top.sv:74-77 | the triangle moves by at most 2 in one clock, at its turns and at the wrap too |
| Waveform.PhaseConserved | computer-architecture/miniproject03++/top.sv:58-60 | cycles completed and accumulator together hold exactly the increments of all clocks at one setting |
| Waveform.CyclesExactly | computer-architecture/miniproject03++/top.sv:58-60 | the cycles in any run of clocks at one setting are the start phase and all increments together, divided by 2^32 |
| Waveform.CyclesPerSecond | computer-architecture/miniproject03++/top.sv:40-55 | a second at one setting makes 999 or 1000, 1999 or 2000, 5000 or 5001, and 9997 or 9998 cycles; the last misses its nominal 10000 |
| Waveform.CyclesOfFullRun | computer-architecture/miniproject03++/top.sv:40-60 | in 2^32 clocks at one setting the cycles are 357913, 715827, 1789574 or 3578139 |
| Waveform.SineAtEveryClock | computer-architecture/miniproject03++/top.sv:58-71 | from power-up, for every button history and every clock after the first, the sine is the wave at the previous phase |
| WaveformValues.SineValues | computer-architecture/miniproject03++/sine_gen.sv:14-34 | the sine is 512 plus the table forwards, plus the table backwards, minus it forwards, minus it backwards, by the quarter of the phase it was read at |
| WaveformValues.SineShape | computer-architecture/miniproject03++/sine_gen.sv:14-34 | it is at least 512 in the first half and at most 512 in the second, rises from 512 to 1023, comes down the same way, and the halves add up to 1024 |
| WaveformValues.OutputValues | computer-architecture/miniproject03++/top.sv:74-92 | the triangle climbs to 1023 and falls, the square is 0 and then 1023, and the selected one is put out |
| WaveformValues.SelectionsCountPresses | computer-architecture/miniproject03++/top.sv:34-37 | the waveform is the number of detected boot presses modulo 3, the frequency that of the other button modulo 4 |
| WaveformValues.PressDetected | computer-architecture/miniproject03++/top.sv:14-26 | a press is detected iff the button was down three clocks ago and none was detected at the clock before |
| Waveform.OutputSteps | computer-architecture/miniproject03++/top.sv:84-92 | between clocks with one waveform selected the output moves by at most 7 for the sine and 2 for the triangle |
| Waveform.Generator.Tick | computer-architecture/miniproject03++/top.sv:15-60 | one clock edge updates every register from the values before it |

## Left out

- CollectPaths: when flow leads back from the sink to the source, how many routes beyond the flow value a particular order of the arcs finds is not stated.
- FindPath: the solver itself is not modelled; its flow is any 0/1 flow, conserved where the result needs it.
- AddRandomTile: the 90 to 10 odds are not modelled; the cell and the draw are arbitrary.
- TransposeBoard: the transposed view of the array is modelled as a new array with the same cells; no other reference to the old one exists, so this cannot be observed.
- MergeRow: tiles and score are unbounded integers; `GameInvariant` bounds both far below 2^63, so the array's integer width plays no part.
- Access: the counters are unbounded, where the original wraps after 2^64 accesses; memory is one array of 2^64 bytes that nobody else writes, and the lines live outside it.
- GetTag: index and offset bits together stay below 64, because the shift by 64 is undefined in C (section 6.5.7 of ISO/IEC 9899:2018).
- Resize: allocation failure and the freeing of dropped strings are not modelled, and doubling does not overflow.
- TokenizeLine: whitespace is that of the C locale; characters outside it, also those with negative `char` values, count as ordinary characters.
- Barrier: calls do not fail, and `sem_wait` is not interrupted by a signal (the code ignores its return value, so an interrupted wait would let a thread go early); `ready` and `go` are trace events instead of output.
- F: division by zero, undefined in C, is excluded.
- The board's display and input loop, the solver notebooks, the other waveform files, metastability of the buttons, and the unfinished exercises of the repository: input and output, or nothing to prove.
