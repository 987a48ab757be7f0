# Verified model of the logistics server

This project models the parts of the logistics server that carry its hard guarantees, and
proves those guarantees in Dafny. `dafny verify dfyconfig.toml` checks everything.

| component | files |
|---|---|
| max-flow solver | `Matrices`, `FlowGraph`, `FlowCut`, `FlowSolver` |
| Hamiltonian circuit enumerator | `PathKeys`, `Rotations`, `SymbolicMatrices`, `CircuitSolver` |
| shared-memory rings | `Counting`, `ResponseRing`, `ResponseTraces`, `RequestRing`, `RequestTraces` |
| token-bucket rate limiter | `RateLimiter` |
| timers and acknowledgement retries | `TimerQueue`, `TimerManager`, `AckChain`, `AckRuns`, `SessionRuns` |
| inventory tables, handlers and cache | `InventoryTables`, `InventoryLife`, `StockBalance`, `ItemLists`, `InventoryManager`, `MemStore` |

**Max flow.** `FordFulkerson` works in place on a residual matrix of reals. It is proved to
stop after at most (V-1)·V² augmentations for every square matrix of real capacities, because
each augmentation lengthens the shortest augmenting path or strictly shrinks the set of edges
on shortest paths. Its result is certified twice: by a feasible flow of that value, and by the
cut the last failing search leaves behind. The pair is optimal if and only if no capacity is
negative.

**Hamiltonian circuits.** The matrix of paths after k-1 Latin multiplications is shown to hold
exactly the simple paths with k edges, each once. With a given start the enumerator lists
exactly the Hamiltonian circuits from it; with no start it lists exactly one representative of
each class of rotations, and the list is the one for start 0.

**Rings.** Both rings are step relations over sequentially consistent interleavings, one program
counter per thread and one step per copied word, with any number of workers and with shutdown.
The response ring delivers every response once, in order, and no response is left without a
pending wake-up. On both rings every published entry is the argument of one push of its own, no
push is dropped before shutdown, each can be carried through to the other side, and after
shutdown only threads already past the flag check still publish or claim. On the request ring ticket safety holds for any number of workers. Contents do
not: a worker that overtakes another can free a slot that is still being copied. The project
gives that run and proves that all copies are right in every run if and only if there is at
most one worker, or one slot, or nothing to copy. Under in-order release contents are right for
any number of workers.

**Rate limiter.** The never-pruned limiter is the reference. Pruning is unnoticeable, and the
bound on requests per window holds, if and only if the bucket holds at least one token. A client
that keeps interval/max between its requests is never refused.

**Timers.** Every operation keeps the multimap, the reverse index, the stored keepalive settings
and the single armed deadline in agreement. A keepalive reset uses the settings of the last start
that nothing has undone since. On top of the queue, the retransmission protocol
sends a message once and then once more for every expiry of its timer, until the expiry that
completes the limit gives up and ends the session. If the timer is not taken away and the
session stays, as many due ticks as the limit allows exhaust the message; an acknowledgement
stops every message it is for, for good. Every limit is reached by some run, over TCP and UDP. The limit is
`max_retries` if and only if that is at least 1: for 0 the unsigned test
`retry_count >= max_retries - 1` wraps around and the message is sent again.

**Inventory.** Tables are maps, statements are functions on them, and each handler is one
transaction. In every serial run, over whatever tables a former server left, a stock transaction
only moves forward. Unless a courier's delivery notice closed it, it has credited its destination
exactly if it is completed, and debited its source exactly if it has one and is dispatched or
completed; neither ever happens twice. The stock of a client that does not report it itself is
what it had plus its receipts less its dispatches and requests, if and only if each of those was
covered. The write-through cache agrees with the tables at every point of a run if and only if it
starts in agreement and every call is safe; under agreement, and with order times that increase
with the ids, cached reads are exactly the SQL queries' answers.

How the model reads the code:

- `double` is `real`. The path bottleneck starts from the first residual instead of the largest
  double, which is the same minimum.
- Ring indices use `%` where the code masks with a power of two.
- Queries that leave their choice open (ties in order time, a random warehouse) are relations;
  a run records the answer it received, and the theorems hold for every answer.
- `std::sort`, hash-map iteration and the multimap's iterators are modelled by what they
  promise: an ordered list, some order, and an identity that survives other changes.
- Histories (what was published, popped, claimed, fired, sent, debited) are part of the modelled state
  so that theorems over runs can speak about them; no operation reads them.
- The random choice of a warehouse, the clock and the messages are parameters.

## Model

| member | source | states |
|---|---|---|
| `FlowSolver.Bfs` | src/server/flow_solver.cpp:16-52 | The search succeeds exactly when the sink is reachable over positive residuals; then the parent chain is a simple path of minimum length, whatever `parent` held before; otherwise the reached nodes are a cut no positive residual leaves. |
| `FlowSolver.PathFlow` | src/server/flow_solver.cpp:82-87 | Following the parents from the sink yields the smallest residual on the path. |
| `FlowSolver.Augment` | src/server/flow_solver.cpp:89-94 | Exactly the edges of the path lose, and their reverses gain, the path flow; the net flow out of every node but source and sink is unchanged. |
| `FlowSolver.AugmentOnce` | src/server/flow_solver.cpp:82-96 | One round of the loop: the bottleneck is positive, some path edge is saturated, and the flow recorded by the residual matrix grows by it. |
| `FlowSolver.FordFulkerson` | src/server/flow_solver.cpp:54-111 | For every real matrix with an entry for each pair of nodes the loop ends within (V-1)·V² rounds, and the value is that of a maximum flow and of a minimum cut if and only if no capacity is negative; columns beyond the nodes are ignored; out-of-range or equal terminals give 0. |
| `FlowSolver.CutProvesOptimal` | src/server/flow_solver.cpp:80-110 | When no positive residual leaves a set that separates source and sink, the recorded flow is feasible and maximal and the set is a minimum cut of the same value. |
| `FlowSolver.OptimalNeedsNonNegative` | src/server/flow_solver.cpp:54-111 | A negative capacity admits no feasible flow, so the optimality statement cannot hold for it. |
| `FlowGraph.AugmentationProgress` | src/server/flow_solver.cpp:80-97 | Augmenting along a shortest path never shortens the source-to-sink distance, and at equal distance the set of edges on shortest paths strictly shrinks. |
| `FlowGraph.DistanceGrows` | src/server/flow_solver.cpp:89-94 | No path that an augmentation leaves or opens is shorter than the shortest path before it. |
| `FlowGraph.BudgetShrinks` | src/server/flow_solver.cpp:80-97 | The remaining number of augmentations strictly decreases. |
| `FlowGraph.BudgetBounds` | src/server/flow_solver.cpp:80-97 | That number lies between 1 and (V-1)·V². |
| `FlowCut.WeakDuality` | src/server/flow_solver.cpp:54-111 | No feasible flow is larger than any cut. |
| `FlowCut.BalancedAugmented` | src/server/flow_solver.cpp:89-94 | Residuals stay non-negative and residual[u][v] + residual[v][u] stays constant. |
| `FlowCut.RecordsAugmented` | src/server/flow_solver.cpp:89-96 | The residual matrix keeps recording a conserved flow whose value is the running `max_flow`. |
| `FlowCut.RecordedFlow` | src/server/flow_solver.cpp:73-97 | What the residual matrix records is a feasible flow of the accumulated value. |
| `FlowCut.SaturatedCut` | src/server/flow_solver.cpp:80-97 | If no positive residual leaves a cut, the accumulated value is its capacity. |
| `PathKeys.ComputePathKey` | src/server/circuit_solver.cpp:57-71 | The loop prints the nodes separated by commas. |
| `PathKeys.ReadKeyOfPath` | src/server/circuit_solver.cpp:57-71 | Reading the decimal numbers between the commas of a key gives back the path, for every path. |
| `PathKeys.PathKeyInjective` | src/server/circuit_solver.cpp:57-71 | Different integer sequences, negative numbers and the empty one included, have different keys. |
| `PathKeys.KeyAmongKeys` | src/server/circuit_solver.cpp:73-88 | Looking a key up among keys is looking the path up among paths. |
| `Rotations.Canonicalize` | src/server/circuit_solver.cpp:90-127 | The scan over offsets computes the canonical rotation, closed again. |
| `Rotations.CanonicalIsLeast` | src/server/circuit_solver.cpp:90-127 | The canonical circuit is a rotation of the circuit and no rotation is lexicographically smaller. |
| `Rotations.CanonicalEqualIffRotation` | src/server/circuit_solver.cpp:90-127 | Two circuits have the same canonical form exactly when one is a rotation of the other. |
| `Rotations.CanonicalIdempotent` | src/server/circuit_solver.cpp:90-127 | Canonicalising a canonical circuit changes nothing. |
| `SymbolicMatrices.PathHasRepeatedNodes` | src/server/circuit_solver.cpp:43-55 | True exactly when two positions hold the same node. |
| `SymbolicMatrices.DeduplicatePaths` | src/server/circuit_solver.cpp:73-88 | Deduplicating by printed key keeps the first occurrence of every path, in order. |
| `SymbolicMatrices.NewKeyIffNewKind` | src/server/circuit_solver.cpp:73-88 | A key is new exactly when no path, or no rotation, of the same kind was seen. |
| `SymbolicMatrices.KeptIsExact` | src/server/circuit_solver.cpp:73-88 | What is kept has one path of every kind and nothing that was not given. |
| `SymbolicMatrices.BuildSymbolicMatrix` | src/server/circuit_solver.cpp:131-150 | One-edge paths for positive off-diagonal entries; a ragged matrix is rejected. |
| `SymbolicMatrices.MultiplyCell` | src/server/circuit_solver.cpp:168-203 | The triple loop over intermediate nodes and pairs of paths computes one cell of the Latin product. |
| `SymbolicMatrices.SymbolicMatrixMultiply` | src/server/circuit_solver.cpp:152-210 | The Latin product for square matrices of equal size; the two error cases otherwise. |
| `SymbolicMatrices.InProductCell` | src/server/circuit_solver.cpp:152-210 | A cell of the product holds exactly the repetition-free compositions through some node, each once. |
| `CircuitSolver.ProductHolds` | src/server/circuit_solver.cpp:152-210 | Multiplying by the one-edge matrix turns the simple paths with k edges into those with k+1. |
| `CircuitSolver.PowerHolds` | src/server/circuit_solver.cpp:258-264 | After k-1 multiplications cell [i][j] holds exactly the simple i-to-j paths with k edges, each once. |
| `CircuitSolver.InCandidates` | src/server/circuit_solver.cpp:276-299 | Closing the longest paths that can return to s gives exactly the Hamiltonian circuits from s. |
| `CircuitSolver.FixedStartIsExact` | src/server/circuit_solver.cpp:237-314 | With start s the result is the set of Hamiltonian circuits from s, each once. |
| `CircuitSolver.AnyStartIsStartZero` | src/server/circuit_solver.cpp:237-314 | With start -1 the list equals the list for start 0. |
| `CircuitSolver.OneRepresentative` | src/server/circuit_solver.cpp:237-314 | With start -1 every Hamiltonian circuit has exactly one listed rotation. |
| `CircuitSolver.HasCircuitSameForAllStarts` | src/server/circuit_solver.cpp:237-314 | Whether a circuit is reported does not depend on the chosen start. |
| `CircuitSolver.SameStartSameCanonical` | src/server/circuit_solver.cpp:90-127 | Rotations of the same circuit that start at the same node are equal. |
| `CircuitSolver.LongestPaths` | src/server/circuit_solver.cpp:258-264 | The loop of multiplications yields the matrix of simple paths with V-1 edges. |
| `CircuitSolver.Enumerate` | src/server/circuit_solver.cpp:266-300 | The loops over starts and last nodes, with the set of seen keys, compute the reported list. |
| `CircuitSolver.FindHamiltonianCircuits` | src/server/circuit_solver.cpp:237-314 | Error cases, small graphs and the reported list, tied to the plain definition of a Hamiltonian circuit. |
| `ResponseRing.StepKeepsInv` | src/server/ipc.cpp:219-322 | Every atomic step of workers, reactor and shutdown keeps the invariant of the response ring. |
| `ResponseRing.WritesFreeSlot` | src/server/ipc.cpp:271-307 | A slot being written is never one that an unread response occupies. |
| `ResponseRing.DeliveredInOrder` | src/server/ipc.cpp:219-307 | In every run the popped responses are the published ones in order, head - tail never exceeds the capacity, and a completed copy is the response published under its ticket. |
| `ResponseRing.UnreadNeverOverwritten` | src/server/ipc.cpp:271-307 | No step changes a slot that holds an unread response. |
| `ResponseRing.HistoryGrows` | src/server/ipc.cpp:219-307 | What was published or popped stays published or popped. |
| `ResponseRing.NoResponseIsStranded` | src/server/server.cpp:473-490 | While a response is unread, the reactor is still draining, the eventfd is readable, or a worker is about to make it so. |
| `ResponseRing.FreeCountIsExact` | src/server/ipc.cpp:271-307 | Until shutdown the free count, the workers under way and the occupied slots add up to the capacity. |
| `ResponseTraces.EveryRunHasActions` | src/server/ipc.cpp:219-322 | Every run has a sequence of operations that made it, so the theorems about operations cover every run. |
| `ResponseTraces.PublishedOncePerCall` | src/server/ipc.cpp:271-307 | In every run each published response is the argument of an earlier push_response call, no call stands behind two, and one worker's responses are in the order of its calls. |
| `ResponseTraces.NoCallDropped` | src/server/ipc.cpp:271-307 | Until shutdown, a worker that is through with a call has published that call's response. |
| `ResponseTraces.ReachPushed` | src/server/ipc.cpp:271-307 | From any reachable state with a free slot and the mutex free, any idle worker can push any response; exactly one slot, one token, one eventfd count and the history change. |
| `ResponseTraces.ReachDrained` | src/server/ipc.cpp:219-236 | From any reachable state an awake reactor can pop everything published and give every slot back. |
| `ResponseTraces.ResponseCanBeDelivered` | src/server/server.cpp:473-490 | A pushed response can be published last and then popped, behind all earlier ones, whether the reactor sleeps or is awake. |
| `ResponseTraces.FirstResponseDelivered` | src/server/ipc.cpp:219-307 | On a new ring any first response can be published, announced once and popped. |
| `ResponseTraces.ReachShutdown` | src/server/ipc.cpp:309-322 | Shutdown can add exactly one free-slot token per slot. |
| `ResponseTraces.ReachDismissed` | src/server/ipc.cpp:271-286 | After shutdown a waiting worker that gets a token, or is interrupted, leaves without publishing. |
| `ResponseTraces.ShutdownStopsPublishing` | src/server/ipc.cpp:271-322 | In every run, after shutdown at most the workers already past the flag check publish. |
| `RequestRing.StepKeepsInv` | src/server/ipc.cpp:192-322 | Every atomic step, spurious compare-and-swap failures included, keeps tickets and token counts consistent. |
| `RequestRing.TicketSafety` | src/server/ipc.cpp:238-269 | For any number of workers and through shutdown, claims are consecutive, each ticket has one owner, and tail <= head <= tail + capacity. |
| `RequestRing.TokenCountIsExact` | src/server/ipc.cpp:192-269 | Until shutdown the tokens, the workers let through and a reactor about to post add up to the unclaimed tickets. |
| `RequestRing.NoRequestIsStranded` | src/server/ipc.cpp:192-269 | Until shutdown an unclaimed request has a token, a worker on its way to claim, or a reactor about to post. |
| `RequestRing.OrderedReleaseKeepsContents` | src/server/ipc.cpp:238-269 | As long as slots were given back in claim order, every copy in progress is a prefix of the request published under its ticket. |
| `RequestRing.AlwaysOrdered` | src/server/ipc.cpp:258-268 | With one worker or one slot, release is always in claim order. |
| `RequestRing.OvertakingNeedsTwo` | src/server/ipc.cpp:258-268 | Only with two workers and two slots can a release overtake an earlier claim. |
| `RequestRing.OvertakenCopyIsWrong` | src/server/ipc.cpp:258-268 | For every larger configuration there is a run in which a worker ends up with words of a later request. |
| `RequestRing.CopiesIntactIff` | src/server/ipc.cpp:192-269 | All copies are right in every run exactly when there is at most one worker, or one slot, or slots have no words. |
| `RequestTraces.EveryRunHasActions` | src/server/ipc.cpp:192-322 | Every run has a sequence of operations that made it. |
| `RequestTraces.PublishedInPushOrder` | src/server/ipc.cpp:192-217 | In every run the published requests are the arguments of different pushes, in push order. |
| `RequestTraces.NoPushDropped` | src/server/ipc.cpp:192-217 | Until shutdown a push that got a slot and is over has published its request. |
| `RequestTraces.ReturnsWithRequest` | src/server/ipc.cpp:238-269 | Until shutdown a worker comes back from waiting only with a whole request copied and its slot given back, interrupted or not. |
| `RequestTraces.RefusedOnlyWhenFull` | src/server/ipc.cpp:192-202 | In every run a push is refused only when every slot is queued, held or leaked, and then nothing changes. |
| `RequestRing.ReachPushed` | src/server/ipc.cpp:192-217 | From any reachable state with a free slot the reactor can push any request; exactly that slot, the two counts and the history change. |
| `RequestTraces.ReachServed` | src/server/ipc.cpp:238-269 | Any idle worker can fetch the oldest request: it copies that slot word for word and gives it back, and nothing else changes. |
| `RequestTraces.RequestCanBeDelivered` | src/server/ipc.cpp:192-269 | A request pushed into an empty ring can reach any idle worker unchanged. |
| `RequestTraces.ReachShutdown` | src/server/ipc.cpp:309-322 | Shutdown can add exactly one request token per slot. |
| `RequestTraces.ReachDismissed` | src/server/ipc.cpp:238-257 | After shutdown a waiting worker that gets a token, or is interrupted, leaves without claiming. |
| `RequestTraces.ShutdownStopsTraffic` | src/server/ipc.cpp:192-322 | In every run, after shutdown at most the threads already past their flag check publish or claim. |
| `RateLimiter.Limiter.constructor` | api_gateway/pkg/middleware/rate_limiter.go:33-44 | A new limiter knows no client, and its limits make sense exactly for a positive interval. |
| `RateLimiter.Limiter.Allow` | api_gateway/pkg/middleware/rate_limiter.go:72-102 | A first request passes and leaves max - 1 tokens. A later one passes exactly when tokens + max·elapsed/interval is at least 1 and max is at least 1, and leaves that amount, capped at max, less one if it passed. |
| `RateLimiter.Limiter.PruneStaleEntries` | api_gateway/pkg/middleware/rate_limiter.go:121-131 | Exactly the buckets whose last request is more than two intervals ago go; the others are unchanged. |
| `RateLimiter.PruningInvisible` | api_gateway/pkg/middleware/rate_limiter.go:72-131 | For every clocked sequence of requests and prunes, each request gets the answer of the limiter that never prunes. |
| `RateLimiter.PruningInvisibleIff` | api_gateway/pkg/middleware/rate_limiter.go:72-131 | Pruning is never noticed exactly when the bucket holds at least one token. |
| `RateLimiter.ForgottenClient` | api_gateway/pkg/middleware/rate_limiter.go:72-131 | With less than one token a pruned client is served again although the unpruned limiter refuses it. |
| `RateLimiter.WindowBudget` | api_gateway/pkg/middleware/rate_limiter.go:72-102 | Requests passed in a window plus tokens left never exceed a full bucket plus the refill of that window. |
| `RateLimiter.WindowBound` | api_gateway/pkg/middleware/rate_limiter.go:72-131 | In every window of length T a client passes at most max + max·T/interval requests, pruned and recreated or not. |
| `RateLimiter.WindowBoundIff` | api_gateway/pkg/middleware/rate_limiter.go:72-131 | That bound holds for all runs exactly when the bucket holds at least one token. |
| `RateLimiter.WholeBucketPasses` | api_gateway/pkg/middleware/rate_limiter.go:72-102 | The bound is reached: a burst of exactly max requests passes. |
| `RateLimiter.RefillAfterBurst` | api_gateway/pkg/middleware/rate_limiter.go:72-102 | After a burst of max requests at t0 a request at t passes exactly when (t - t0)·max is at least one interval. |
| `RateLimiter.SteadyClientPasses` | api_gateway/pkg/middleware/rate_limiter.go:72-131 | In every run, with any other clients and prunes, a client that keeps interval/max between its requests is never refused. |
| `TimerQueue.InsertValid` | src/server/timer_manager.cpp:39-53 | Inserting replaces the entry of the same key by one due after the timeout, keeps all others and the keepalive settings, and leaves the queue consistent and armed for the earliest deadline. |
| `TimerQueue.CancelValid` | src/server/timer_manager.cpp:55-74 | Cancelling removes exactly the entry of the key; the armed deadline stays right although it is only recomputed for the first entry. |
| `TimerQueue.StartKeepaliveValid` | src/server/timer_manager.cpp:173-185 | Starting a keepalive timer replaces the session's old one by one due after the timeout, and stores exactly that timeout and callback. |
| `TimerQueue.ResetKeepaliveValid` | src/server/timer_manager.cpp:187-205 | A reset restarts the session's keepalive timer with the stored timeout and callback, and does nothing without them. |
| `TimerQueue.CancelKeepaliveValid` | src/server/timer_manager.cpp:207-216 | Cancelling removes the session's keepalive entry and settings, and no other. |
| `TimerQueue.ClearSessionExact` | src/server/timer_manager.cpp:218-236 | Exactly the timers and settings of the session go, whatever order its keys are listed in. |
| `TimerQueue.ExpireExact` | src/server/timer_manager.cpp:115-149 | One tick fires exactly the entries with deadline <= now, in deadline order, keeps the settings and re-arms for the rest. |
| `TimerQueue.DoValid` | src/server/timer_manager.cpp:39-236 | Every operation keeps the index a bijection onto the entries, the keepalive settings stored, and the timerfd armed for the earliest deadline. |
| `TimerQueue.RunValid` | src/server/timer_manager.cpp:39-236 | The same at every point of every run. |
| `TimerQueue.FiresAtMostOnce` | src/server/timer_manager.cpp:39-149 | In every run a timer instance fires at most once, never before its deadline, and never if it was cancelled or replaced. |
| `TimerQueue.FatesAreFinal` | src/server/timer_manager.cpp:39-149 | What fired or was removed stays so. |
| `TimerQueue.SettingsOfLastStart` | src/server/timer_manager.cpp:173-216 | In every run the settings on record are the timeout and callback of the last start with no cancel or clear since. |
| `TimerQueue.SettingsNeedStart` | src/server/timer_manager.cpp:173-236 | Without such a start none are on record. |
| `TimerQueue.ResetUsesLastStart` | src/server/timer_manager.cpp:187-205 | In every run a reset leaves a keepalive entry due at its own time plus the timeout of the last start, with its callback, in place of the old one. |
| `TimerQueue.ResetWithoutStart` | src/server/timer_manager.cpp:187-236 | A reset before any start, or after a cancel or a clear, changes nothing. |
| `TimerManager.Manager.constructor` | src/server/timer_manager.cpp:10-23 | A new manager has no timers. |
| `TimerManager.Manager.RearmTimerfd` | src/server/timer_manager.cpp:76-113 | Armed for the first deadline, for at least a nanosecond, or disarmed. |
| `TimerManager.Manager.InsertTimer` | src/server/timer_manager.cpp:39-53 | In place, the queue operation of the same name. |
| `TimerManager.Manager.CancelTimer` | src/server/timer_manager.cpp:55-74 | In place, the queue operation of the same name, and whether there was a timer. |
| `TimerManager.Manager.StartAckTimer` | src/server/timer_manager.cpp:151-158 | The session's acknowledgement key gets an entry due after the timeout, in place of its old one; all else stays. |
| `TimerManager.Manager.CancelAckTimer` | src/server/timer_manager.cpp:160-171 | Removes exactly the entry of that key and reports whether there was one. |
| `TimerManager.Manager.StartKeepaliveTimer` | src/server/timer_manager.cpp:173-185 | The session's keepalive entry is replaced by one due after the timeout, and the timeout and callback are stored. |
| `TimerManager.Manager.ResetKeepaliveTimer` | src/server/timer_manager.cpp:187-205 | The keepalive entry is replaced by one due after the stored timeout, with the stored callback; nothing happens without them. |
| `TimerManager.Manager.CancelKeepaliveTimer` | src/server/timer_manager.cpp:207-216 | Removes the session's keepalive entry and its settings, and nothing else. |
| `TimerManager.Manager.ClearSessionTimers` | src/server/timer_manager.cpp:218-236 | Removes exactly the session's entries and its settings. |
| `TimerManager.Manager.OnTimerfdReady` | src/server/timer_manager.cpp:115-149 | The entries due are removed from the front, and their callbacks are returned in deadline order. |
| `AckChain.NextInv` | src/server/server.cpp:507-740 | Every reactor event keeps each running message tied to exactly one timer, filed under the message's own key, that carries its payload, limit and send count. |
| `AckChain.LimitIsMaxRetries` | src/server/server.cpp:686-740 | The unsigned retry test allows `max_retries` transmissions, or 2^32 when it is zero. |
| `AckRuns.SendsBounded` | src/server/server.cpp:507-553 | In every run a tracked message is sent at least once and at most `max_retries` times when that is positive. |
| `AckRuns.ExpiryResends` | src/server/server.cpp:731-739 | In every run, an expiry with retries left transmits the message's payload to its session once, raises the send count by one, and files one timer under the message's key, due one timeout later. |
| `AckRuns.FirstTimer` | src/server/server.cpp:507-553 | In every run a command that begins to track a message for a present session files its first timer under that session and key, due after the command's timeout, and a command to send transmits the payload once; for an absent session nothing happens. |
| `AckRuns.TransmissionsExact` | src/server/server.cpp:507-740 | In every run packets are sent by exactly two kinds of steps, a command to send and an expiry before the limit, and each carries its message's payload to its session. |
| `AckRuns.ExpiriesExact` | src/server/server.cpp:686-740 | In every run the expiries of a message number one less than its transmissions, or as many once it was given up. |
| `AckRuns.SentOncePerExpiry` | src/server/server.cpp:686-740 | After k expiries a message was sent 1 + k times, up to the limit, and was given up exactly when k is the limit. |
| `AckRuns.LastExpiryGivesUp` | src/server/server.cpp:694-729 | An expiry gives up and ends the session exactly when it is the one that completes the limit. |
| `AckRuns.GivingUpEndsSession` | src/server/server.cpp:694-729 | When the retries are used up the message was sent to its limit, nothing more is sent, and exactly that session loses its timers and settings and is removed (TCP) or blacklisted (UDP). |
| `AckRuns.ExhaustedHow` | src/server/server.cpp:694-729 | A given-up message has, earlier in the run, the expiry that ended its session. |
| `AckRuns.StoppedForGood` | src/server/server.cpp:555-562 | Once its timer was taken away, or once it ended, a message stays as it is for the rest of the run. |
| `AckRuns.AcknowledgedNeverResent` | src/server/server.cpp:555-562 | In every run an acknowledgement for a present session and a key leaves every message of that session and key as it is for the rest of the run. |
| `AckRuns.SentThenAcknowledged` | src/server/server.cpp:507-562 | A message tracked by a command and acknowledged by its session and key is never sent again. |
| `AckRuns.SameMessage` | src/server/server.cpp:686-740 | What a message is about (session, key, payload, limit) never changes in a run. |
| `SessionRuns.SessionEventsExact` | src/server/server.cpp:555-590 | In every run a cancel, clear, keepalive start or keepalive reset changes the timers and settings of the session it names as asked, and nothing else. |
| `SessionRuns.KeepaliveExpiryEndsSession` | src/server/server.cpp:646-684 | In every run an expired keepalive removes its session with all its timers and settings, and nothing is sent. |
| `SessionRuns.TickHandsOver` | src/server/timer_manager.cpp:115-149 | In every run a tick hands over exactly the due timers, in deadline order. |
| `AckRuns.TicksDrive` | src/server/server.cpp:686-740 | Every tick at which a message's timer is due is answered by a transmission or by a callback about to run, unless the message was stopped. |
| `AckRuns.SentExactlyLimit` | src/server/server.cpp:686-740 | If the timer is not taken away and the session stays, `Limit` due ticks whose callbacks ran leave a message sent exactly `max_retries` times and given up, at an expiry that cleared the session's timers and removed or blacklisted it. |
| `AckRuns.EverySendReached` | src/server/server.cpp:507-553 | For every number of transmissions up to the limit some run reaches it. |
| `AckRuns.LimitReached` | src/server/server.cpp:686-740 | For every `max_retries` and either transport some run sends a message exactly to the limit, gives it up and ends its session. |
| `AckRuns.ZeroRetriesExceeds` | src/server/server.cpp:694-694 | With `max_retries` 0 some run sends a message again. |
| `AckRuns.NeverExceedsIff` | src/server/server.cpp:507-740 | No run sends a message more than `max_retries` times exactly when `max_retries` is at least 1. |
| `InventoryTables.FindTransactionId` | src/server/database.cpp:665-685 | A matching row with the latest order time, or -1 when none matches. |
| `InventoryTables.GetPendingTransactions` | src/server/database.cpp:635-646 | The earliest pending rows in order of time, at most the given number. |
| `InventoryTables.AdjustMoves` | src/server/database.cpp:794-824 | An adjustment adds or takes each item's quantity of the one client, taking stops at zero, and no other client and no client type changes. |
| `InventoryTables.EnsuredStock` | src/server/database.cpp:745-774 | An unknown warehouse starts with 500 of every item, any other client with 100; a known one keeps its row. |
| `InventoryManager.WarehouseWithAllStock` | src/server/database.cpp:400-427 | Some warehouse whose stock covers the request, or none when there is none. |
| `InventoryLife.EveryTableHasBooks` | src/server/database.cpp:301-331 | Whatever rows the persistent tables hold, there is a history of debits and credits that fits them, so the run theorems cover every restart. |
| `InventoryLife.EffectKeepsInv` | src/server/inventory_manager.cpp:16-485 | Every handler keeps the tables well formed and the books exact, and moves no row backwards. |
| `InventoryLife.StatusMovesForward` | src/server/inventory_manager.cpp:16-485 | In every serial run over any tables no transaction disappears, changes what it is about, or moves backwards along PENDING, ASSIGNED, DISPATCHED, COMPLETED. |
| `InventoryLife.GoodsMoveExactlyOnce` | src/server/inventory_manager.cpp:158-315 | In every serial run no transaction debits or credits twice, and one that no delivery notice closed has credited exactly if completed and debited exactly if it has a source and left. |
| `InventoryLife.GoodsMoveForTheirOwner` | src/server/inventory_manager.cpp:158-315 | A debit goes to the source of an assigned row at the step that dispatches it, a credit to the destination of a dispatched row at the step that completes it. |
| `InventoryLife.ConfirmationMovesOnceOrNothing` | src/server/inventory_manager.cpp:158-315 | A dispatch that finds its row takes each quantity from the sender (never below zero) and a receipt adds it, each for the first time, and only the row's status changes; one that finds none changes nothing. |
| `InventoryLife.DeliveredKeepsInv` | src/server/mqtt_client.cpp:360-369 | Completing a row directly keeps the books exact and moves it forward, whatever its status was. |
| `InventoryLife.BatchPromotes` | src/server/inventory_manager.cpp:402-485 | A pass over the gateway orders assigns the pending orders it took to the hub and changes nothing else. |
| `InventoryLife.RequestMoves` | src/server/inventory_manager.cpp:42-103 | A stock request takes its quantities from the hub and adds one row for it, pending or assigned to the warehouse found; without a hub or role nothing happens. |
| `InventoryLife.OrderMoves` | src/server/database.cpp:443-462 | An order from elsewhere adds one pending row for its destination and moves nothing; an incomplete one adds nothing. |
| `InventoryLife.ReplenishMoves` | src/server/inventory_manager.cpp:105-156 | A replenishment adds one dispatched row without a source and moves no stock. |
| `StockBalance.StepBalances` | src/server/inventory_manager.cpp:16-485 | Each handler changes a client's stock by what it brings less what it takes, plus what was taken but not there. |
| `StockBalance.StockIsBalance` | src/server/inventory_manager.cpp:16-485 | In every run the stock of a client that does not report it itself is at least initial stock plus receipts less dispatches and requests, and equal to it exactly when each of those was covered. |
| `ItemLists.ExtractQuantities` | src/server/inventory_manager.cpp:487-502 | The slots of a payload are folded into six quantities. |
| `ItemLists.LastSlotDecides` | src/server/inventory_manager.cpp:487-502 | The last slot of an item decides its quantity. |
| `ItemLists.NoSlotNoQuantity` | src/server/inventory_manager.cpp:487-502 | An item without a slot has quantity zero. |
| `ItemLists.CountUsedSlots` | src/server/inventory_manager.cpp:54-61 | Counts the slots with an item number. |
| `ItemLists.UsedSlotsCount` | src/server/inventory_manager.cpp:54-61 | That count is the number of slots with a non-zero item number. |
| `ItemLists.ListItems` | src/server/inventory_manager.cpp:373-384 | Lists the items with a positive quantity in item order. |
| `ItemLists.ListedItems` | src/server/inventory_manager.cpp:373-384 | Each listed slot has the item's number, name and positive quantity, and the numbers increase. |
| `ItemLists.RoundTripIff` | src/server/inventory_manager.cpp:300-308 | A listed reply read back gives the same quantities exactly when none is negative. |
| `InventoryManager.GatewayNeverOverpromises` | src/server/inventory_manager.cpp:402-485 | The gateway orders a hub takes in one pass fit its stock together. |
| `InventoryManager.GatewayIsGreedy` | src/server/inventory_manager.cpp:402-485 | The pass takes exactly the gateway orders that fit the stock together with those taken before them. |
| `InventoryManager.TakeGatewayOrders` | src/server/inventory_manager.cpp:427-475 | The loop with its shrinking local stock takes the orders the specification takes and reports each with its items. |
| `InventoryManager.BatchFits` | src/server/inventory_manager.cpp:402-485 | The orders of one pass become assigned, nothing else changes, and they fit the stock together. |
| `InventoryManager.FirstFitIsFirst` | src/server/inventory_manager.cpp:342-390 | A warehouse takes the earliest pending order it can fulfil and skips gateway orders. |
| `InventoryManager.SearchFirstFit` | src/server/inventory_manager.cpp:342-390 | The scan with its early exit finds that order. |
| `InventoryManager.Manager.constructor` | src/server/database.cpp:296-352 | Takes up persistent tables with books that fit them. |
| `InventoryManager.Manager.HandleInventoryUpdate` | src/server/inventory_manager.cpp:16-40 | Overwrites the client's stock with the reported quantities and no other, and for a warehouse assigns and reports the earliest pending order these cover. |
| `InventoryManager.Manager.HandleStockRequest` | src/server/inventory_manager.cpp:42-103 | Takes each quantity from the hub (never below zero) and adds the row, assigned to a warehouse that covers every item if there is one, all or nothing; echoes the items. |
| `InventoryManager.Manager.HandleReplenishRequest` | src/server/inventory_manager.cpp:105-156 | Adds a row that is already dispatched to the client, and moves no stock; echoes the items. |
| `InventoryManager.Manager.HandleReceiptConfirmation` | src/server/inventory_manager.cpp:158-194 | Adds each quantity to the client's stock and completes the latest dispatched row; a repetition is a success without any change. |
| `InventoryManager.Manager.HandleDispatchConfirmation` | src/server/inventory_manager.cpp:196-235 | Takes each quantity from the client's stock (never below zero) and dispatches the latest assigned row; a repetition is a success without any change. |
| `InventoryManager.Manager.HandleShipmentNotice` | src/server/inventory_manager.cpp:237-315 | The same movement, with the transaction, its requester and the listed items reported back. |
| `InventoryManager.Manager.HandleDelivered` | src/server/mqtt_client.cpp:353-369 | Completes the named row and moves no stock. |
| `InventoryManager.Manager.ProcessPendingOrders` | src/server/inventory_manager.cpp:317-400 | Assigns to the warehouse the earliest of the first 100 pending orders that its stock covers and that is no gateway order, and reports exactly that one, for whom and with which items. |
| `InventoryManager.Manager.ProcessPendingGatewayOrders` | src/server/inventory_manager.cpp:402-485 | Assigns to the hub, of the first 100 pending orders, the gateway orders that fit its stock together with those taken before, and reports exactly those with their items. |
| `MemStore.StepAgreesIff` | src/server/mem_store.cpp:111-358 | A call keeps cache and tables in agreement exactly when it does not mark a finished transaction and an update names a client and a type. |
| `MemStore.RunAgreesIff` | src/server/mem_store.cpp:111-358 | Cache and tables agree at every point of a run exactly when they agree at its start and every call is safe. |
| `MemStore.FreshAgreesIff` | src/server/mem_store.cpp:14-16 | A new store agrees with a table exactly when that has no live transactions, since none are loaded. |
| `MemStore.StepIncreasingIff` | src/server/mem_store.cpp:232-273 | Order times keep increasing with the ids exactly when each new order is later than all before it. |
| `MemStore.FindAgreesIff` | src/server/mem_store.cpp:360-379 | The cached search answers as the SQL query exactly when no finished row is a later match. |
| `MemStore.FindLive` | src/server/mem_store.cpp:360-379 | For a live status the two have the same answers. |
| `MemStore.PendingAgrees` | src/server/mem_store.cpp:391-414 | The lowest pending ids in the cache are exactly the answers of the SQL query. |
| `MemStore.CachedReadsAreQueries` | src/server/mem_store.cpp:111-414 | At every point of a run of safe, timely calls both cached reads are the SQL queries. |
| `MemStore.ScanAgreesIff` | src/server/mem_store.cpp:200-230 | The cached warehouse scan answers every request as the SQL query would exactly when each stored warehouse is matched by a known one with at least its stock, and all known ids are warehouses. |
| `MemStore.MemoryStore.constructor` | src/server/mem_store.cpp:14-16 | A new store caches nothing. |
| `MemStore.MemoryStore.GetInventory` | src/server/mem_store.cpp:111-145 | A hit is answered from the cache; a miss reads the row, or creates it with the initial quantities, and caches it; under agreement the answer is the stored row. |
| `MemStore.MemoryStore.UpdateClientInventory` | src/server/mem_store.cpp:147-168 | The cache gets the quantities, and the warehouse its mark, whatever the database then says; the row changes only for a named client and type. |
| `MemStore.MemoryStore.AdjustClientInventory` | src/server/mem_store.cpp:170-198 | In the cache and in the row each quantity is added, or taken down to zero at the least; no other client changes in either. |
| `MemStore.MemoryStore.CreateNewTransaction` | src/server/mem_store.cpp:232-273 | A pending row for the destination with the given items is added under a fresh id and cached; a refused one is not. |
| `MemStore.MemoryStore.SetTransactionSource` | src/server/mem_store.cpp:275-297 | Both copies get the source. |
| `MemStore.MemoryStore.MarkTransactionAssigned` | src/server/mem_store.cpp:299-318 | The cached record changes if there is one, the row always. |
| `MemStore.MemoryStore.MarkTransactionDispatched` | src/server/mem_store.cpp:320-339 | The cached record changes if there is one, the row always. |
| `MemStore.MemoryStore.CompleteTransaction` | src/server/mem_store.cpp:341-358 | The record leaves the cache, the row is completed. |
| `MemStore.MemoryStore.FindTransaction` | src/server/mem_store.cpp:360-379 | The scan finds the highest matching id, or -1. |
| `MemStore.MemoryStore.GetPendingTransactions` | src/server/mem_store.cpp:391-414 | At most the given number of pending ids, lowest first. |
| `MemStore.MemoryStore.FindWarehouseWithStock` | src/server/mem_store.cpp:200-230 | Some known warehouse whose cached stock covers the request, or none when there is none. |

## Left out

- Floating point: rounding, NaN and infinities, and the OpenMP variants; arithmetic is over the reals.
- Execution times that the solvers report.
- `remove_repeated_node_paths`: no caller's result depends on it once products drop repetitions.
- FlowSolver.FordFulkerson: a capacity matrix with a row shorter than the number of nodes is excluded when the terminals are in range, because the code then reads outside that row.
- 64-bit wrap-around of the ring counters and the cost of `%` against masks.
- Weak memory orders: steps are sequentially consistent.
- System calls: sockets, epoll, mmap, fork, and failures of eventfd, timerfd and semaphore calls other than interruption.
- The two rings are modelled separately, without the processing that links a request to its response.
- Limits and times of the limiter that are infinite or not positive, and the HTTP layer around it.
- TimerManager.Manager.OnTimerfdReady: one clock reading per operation, where the code reads the clock again to re-arm.
- Callbacks that run while the due entries are being collected: the code collects first, and so does the model.
- Broadcasts are modelled as separate sends, one per session.
- `tcp_session` framing, which drops the rest of a partially sent frame.
- The username index of the session manager.
- Database failures, concurrent database transactions, and the credentials part of the cache.
- StockBalance.StockIsBalance: clients whose own stock reports overwrite the stock, because a report may say anything.
- The text of a courier's delivery notice: the model starts from the transaction number read from it.
- JSON payloads, the C++ configuration and logging, the Go dispatcher and core bridge, the firmware, the user interface and the Python tools.
