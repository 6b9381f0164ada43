# Muses, verified in Dafny

A model of the concurrency and networking primitives of the C++ library Muses, with
machine-checked proofs of what they promise. Every file is plain Dafny 4.11; the whole
project is checked with `dafny verify dfyconfig.toml`.

| component | modules | what is proved |
|---|---|---|
| lock-free ring | `Slots`, `RingProtocol`, `RingTheorems`, `RingProgress`, `RingAlone`, `RingAnswers`, `RingQueue` | an interleaving model with one step per atomic access, for any number of threads; safety, delivery and conservation over every run; what every call answers; exactly when an operation whose peers stand still returns; the single-threaded ring as an object over arrays that refines a bounded list |
| blocking queue | `BlockingQueue` | a monitor with explicit blocked and awake threads; no lost wakeup in any run |
| worker pool | `ThreadPool` | each task once, the drain and stop protocols, no lost wakeup although notifications are sent outside the lock |
| reactor | `RequestScan`, `Reactor`, `ReactorRuns`, `ReactorFraming`, `ReactorEndings`, `ReactorHazards`, `Connection`, `RateLimiter` | the incremental delimiter scan, the connection protocol over every run with the connections it has closed and why, the connection object with its read, scan and write loops, and the rate limiter |
| memory pool | `PoolSpec`, `PoolPtr`, `MemoryPool`, `PooledBuffer` | layout, free lists and reference counts over every run of handle operations; the pool object with free lists threaded through memory; the growable buffer |
| HTTP | `Text`, `HttpRequest`, `RequestLines`, `HttpResponse`, `Proxy`, `Forwarding` | parsing against printing, the proxy's rewrite, when it forwards the request the client sent and when the upstream reads it as one request, response framing |
| caches and filters | `LruSpec`, `LruCache`, `BloomSpec`, `BloomFilter` | list and index agreement, the inclusion property, survival of recent keys; packed counters against multiset sums |

Code that updates objects in place is a class whose methods are proved against
specification functions; concurrent code is a state machine whose runs are arbitrary
sequences of steps; code that only computes is a function. `Counting`, `Numbers` and
`Chunks` hold shared helpers.

## Properties that hold only under a condition

Each of these is stated as an if-and-only-if, or with a family of inputs that breaks it.

- A ring of one cell breaks: "published at n" and "free for n + 1" are the same sequence
  number, so two pushes succeed, one item is overwritten and a pop never returns
  (`OneCellLosesItems`). The ring keeps its bound in every run if and only if it has at
  least two cells (`BoundNeedsTwoCells`). The contracts of the ring object cover both.
- The ring is not lock-free under DropOldest. A thread that runs alone, its peers standing
  still anywhere, returns within sixteen steps, except a push that another thread holds up
  from inside the cell it needs: the taker of the lap before, or on a full lap the pusher of
  the front item (`ReturnsIffNotStuck`). That push throws away every published item in front,
  places nothing and goes round for ever (`LonePushEvicts`, with `StalledPopStrandsPush` a run
  for every ring), until at most three steps of the one thread set it free
  (`OneThreadHoldsItUp`).
- A drain that reads more after completing a request moves the scan position again, so
  the request handed to the worker can be cut inside its terminator (`TruncatedRequest`)
  or joined with bytes of the next one. It is exactly the first request if and only if
  the completing read was the last one, or exactly three bytes followed it and the two
  reads after it did not complete an overlapping terminator (`FramingIff`). Over whole
  runs, the requests handed out are the messages of the byte stream if and only if the
  reads of every drain were framed in this sense (`RequestsAreTheMessages`).
- Hand-backs are matched by descriptor number only. An event keeps every connection in
  order if and only if it neither reuses a number with a hand-back in flight nor drops
  the hand-back of a connection in the table (`StepKeepsInv`). Every reuse of the first kind
  can go on to give the new client an answer it never asked for (`EarlyReuseMisserves`), every
  drop strands its connection (`EveryRejectionStrands`), and `ReuseMisdelivers` and
  `RejectionStrands` are such runs from the start. The other theorems about runs
  of the reactor are about runs of harmless events.
- The proxy parses the head it has read but forwards the bytes after the first CR LF CR LF
  as the body. The two agree if and only if the start line ends by then and no line before
  it is blank, as the parser reads lines (`ParsedBodyIff`). `BareBlankDropsBytes` is a
  family of requests from which bytes of the body are not forwarded.
- The proxy forwards everything it has read behind the head. Framed by Content-Length, the
  upstream reads the client's request and nothing else if and only if that read did not reach
  past the body (`UpstreamReadsOneRequestIff`); `PipelinedBytesAreForwarded` is a family of
  clean heads whose over-read bytes reach the upstream unrewritten, as another request.
- Bloom counters are exact throughout a history if and only if no add pushes a counter past
  15 and no absent item is removed from counters it shares (`CountersAreExact`).
  `SaturationForgets` gives, from any filter and for every number of adds above 15, a
  history with a false negative; `AbsentRemoveForgets` gives one for every pair of items
  that share a slot.
- `remove` undoes `add` if and only if no probed non-zero counter passes 15
  (`RemoveUndoesAdd`).

## Model

| member | source | states |
|---|---|---|
| `RingProtocol.StepKeepsInv` | muses/bounded_queue.hpp:176-304 | one atomic step of any thread keeps cursors, cell turns, payloads and claims consistent |
| `RingProtocol.CellsDisjoint` | muses/bounded_queue.hpp:184-263 | two threads that have claimed positions never hold the same cell |
| `RingProtocol.PushCasSeesFreeCell` | muses/bounded_queue.hpp:184-189 | a push whose compare-and-swap will succeed still finds its cell empty, on its turn, and the ring not full |
| `RingProtocol.TakeCasSeesItem` | muses/bounded_queue.hpp:223-256 | a pop or eviction whose compare-and-swap will succeed still finds the front item published |
| `RingProtocol.ExecKeepsInv` | muses/bounded_queue.hpp:158-304 | the invariant holds after every interleaving of any length |
| `RingTheorems.BoundsInEveryRun` | muses/bounded_queue.hpp:176-264 | with two or more cells, dequeue position, enqueue position and lap stay ordered and every cell's sequence is a legal lap value |
| `RingTheorems.ExclusiveCells` | muses/bounded_queue.hpp:184-263 | no two threads are inside one payload at once, in any run |
| `RingTheorems.CasStillOwnsWhatItSaw` | muses/bounded_queue.hpp:184-256 | a successful compare-and-swap owns a cell in the state seen by the earlier sequence load, and nobody else is in it |
| `RingTheorems.DeliveryInEveryRun` | muses/bounded_queue.hpp:184-263 | the item delivered for position n is the one pushed at n; each position is delivered at most once, evicted ones never, popped ones unless the popper is still inside |
| `RingTheorems.ConservationInEveryRun` | muses/bounded_queue.hpp:184-263 | successful pushes are pops, evictions and items held; the dropped counter is the rejections (DropNew) or evictions (DropOldest), up to threads in flight |
| `RingTheorems.QuiescentContents` | muses/bounded_queue.hpp:176-264 | with no thread inside, the books balance exactly and the cells hold the queue in order |
| `RingTheorems.SizeNeverExceedsCells` | muses/bounded_queue.hpp:300-304 | the two-load size never exceeds the number of cells |
| `RingTheorems.FullVerdict` | muses/bounded_queue.hpp:195-205 | a push sees a full ring if and only if its cursor is current and a lap is held or the taker of the blocking cell has not released it |
| `RingTheorems.EmptyVerdict` | muses/bounded_queue.hpp:233-259 | a take sees an empty ring if and only if its cursor is current and nothing is held or the front push is unpublished |
| `RingAnswers.EmptyAnswersAreTrue` | muses/bounded_queue.hpp:243-263 | in every run, an event that ends a pop without delivering an item is a look at the front cell with a current cursor, and the ring is empty or its front push unpublished |
| `RingAnswers.PopLooks` | muses/bounded_queue.hpp:243-259 | a look at the front with something to take goes on to claim it; with nothing to take it ends the pop |
| `RingAnswers.RefusalsAreTrue` | muses/bounded_queue.hpp:176-207 | in every run, a push leaves with its item published, or finds the queue stopped, or turns to refusing at a look at a ring without room under DropNew with a current cursor |
| `RingAnswers.PushLooks` | muses/bounded_queue.hpp:178-207 | a look at the next cell claims it when there is room, and otherwise refuses or evicts as the policy says |
| `RingAnswers.RejectStep` | muses/bounded_queue.hpp:195-200 | a refused push is counted once and places nothing |
| `RingAnswers.CallsStart` | muses/bounded_queue.hpp:176-298 | a call starts the operation it names, a stopped queue refuses a push at once, and stop stops |
| `RingAnswers.SizeIsBetween` | muses/bounded_queue.hpp:300-304 | in every run size() answers at most the items held at its first load and at least those held at its second less the pushes in between; exactly the items held when nobody steps in between |
| `RingTheorems.VerdictsExactWithoutPeers` | muses/bounded_queue.hpp:195-259 | with no peer inside a cell both verdicts are exact in every run |
| `RingProgress.OvertakingsArePaidFor` | muses/bounded_queue.hpp:176-263 | in every run a thread is overtaken, at a sequence load or a compare-and-swap, at most as often as other threads claimed positions at that cursor; rounds with a full ring and nothing to evict are not counted here |
| `RingAlone.StuckForever` | muses/bounded_queue.hpp:176-241 | a DropOldest push blocked by a thread inside its cell stays so through any number of its own steps |
| `RingAlone.ReturnsIffNotStuck` | muses/bounded_queue.hpp:176-263 | at any point of any run, a thread that runs alone from there returns if and only if it is not a DropOldest push blocked by another thread inside its cell, and then within sixteen steps |
| `RingAlone.LonePushEvicts` | muses/bounded_queue.hpp:176-241 | in every run a lone DropOldest push evicts one item on a full lap and none otherwise if it returns; if blocked it evicts every published item in front, counts them and places nothing |
| `RingAlone.OneThreadHoldsItUp` | muses/bounded_queue.hpp:184-263 | in every run a stuck push is held up by one other thread, and at most three steps of that thread let it return |
| `RingAlone.OnlyThreadReturns` | muses/bounded_queue.hpp:176-263 | at any point of any run of a single thread, its operation returns |
| `RingAlone.StalledPopStrandsPush` | muses/bounded_queue.hpp:195-263 | for every ring of two or more cells, a run in which a pop stalls in the front cell of a full ring and the next DropOldest push discards all other items and never returns |
| `RingProgress.NeverOvertakenAlone` | muses/bounded_queue.hpp:176-263 | the only thread of a ring is never overtaken, in any run |
| `RingTheorems.PushOnOneCell` | muses/bounded_queue.hpp:159-193 | on a ring of one cell a push always succeeds and overwrites |
| `RingTheorems.PopSpins` | muses/bounded_queue.hpp:243-263 | a pop on one cell that finds the sequence ahead of its turn retries for ever |
| `RingTheorems.OneCellLosesItems` | muses/bounded_queue.hpp:159-264 | two pushes on one cell both succeed, the first item is lost, and a later pop never returns |
| `RingTheorems.BoundNeedsTwoCells` | muses/bounded_queue.hpp:159-174 | the ring respects its bound in every run if and only if it has at least two cells |
| `Slots.MaskIsSlot` | muses/bounded_queue.hpp:160-163 | masking with a power of two less one is the position modulo the number of cells |
| `RingQueue.Ring.constructor` | muses/bounded_queue.hpp:159-174 | the capacity is rounded up to a power of two below twice the request, one cell included; the new ring is empty |
| `RingQueue.Ring.Index` | muses/bounded_queue.hpp:180 | the masked index is the slot of the position |
| `RingQueue.Ring.Push` | muses/bounded_queue.hpp:176-212 | used by one thread, push is push on a plain list bounded by the number of cells, for each policy, with at most one eviction; on one cell it overwrites, and the ring is stuck if and only if it did so once |
| `RingQueue.Ring.Place` | muses/bounded_queue.hpp:184-193 | claim, emplace and publish append one item; on one cell they replace it |
| `RingQueue.Ring.EvictOne` | muses/bounded_queue.hpp:216-241 | the front item goes and is counted, or nothing happens on an empty ring |
| `RingQueue.Ring.TryPop` | muses/bounded_queue.hpp:243-264 | pop on a plain list |
| `RingQueue.Ring.Release` | muses/bounded_queue.hpp:253-255 | emptying the cell and handing it to the next lap removes exactly the front item |
| `RingQueue.Ring.Size` | muses/bounded_queue.hpp:300-304 | the number of items, at most the number of cells, when there are two or more cells |
| `RingQueue.ListLaws` | muses/bounded_queue.hpp:176-264 | the bounded list appends, refuses or replaces its oldest item, and pops its first |
| `BlockingQueue.ApplyKeepsInv` | muses/bounded_queue.hpp:329-379 | every section under the mutex keeps the wakeup balance and the log, whichever thread is notified |
| `BlockingQueue.NoLostWakeup` | muses/bounded_queue.hpp:329-379 | in every run: while a consumer stays blocked, items do not exceed the notified consumers on their way, those woken by themselves not counted; the same for producers and free places; size within capacity; nobody blocked after stop |
| `BlockingQueue.FirstInFirstOut` | muses/bounded_queue.hpp:338-371 | in every run items come out in the order they went in, each once |
| `BlockingQueue.PushAnswers` | muses/bounded_queue.hpp:329-342 | before stop a push with room appends its own item, without room it blocks; after stop it is refused |
| `BlockingQueue.PopAnswers` | muses/bounded_queue.hpp:344-372 | a pop takes the front item if there is one, stopped or not, and leaves without one only if stopped, expired or not waiting |
| `BlockingQueue.TimeoutReturns` | muses/bounded_queue.hpp:352-363 | a timed wait that runs out comes back, with the front item only if there is one |
| `BlockingQueue.NothingAcceptedAfterStop` | muses/bounded_queue.hpp:329-342 | after stop nothing is accepted in any continuation |
| `BlockingQueue.StopStops` | muses/bounded_queue.hpp:374-379 | a call of stop stops the queue, and nothing else does |
| `BlockingQueue.BlockedForAReason` | muses/bounded_queue.hpp:329-372 | with no notified thread on its way, a blocked consumer means an empty queue and a blocked producer a full one |
| `BlockingQueue.StrandedItemIsTaken` | muses/bounded_queue.hpp:352-372 | an item beside a blocked consumer has a notified consumer on its way, and whichever awake consumer resumes leaves with the front item |
| `ThreadPool.StepKeepsInv` | muses/thread_pool.hpp:50-111 | every step of a worker or client keeps the task log, the counter and the wakeup balance |
| `ThreadPool.EachTaskOnce` | muses/thread_pool.hpp:53-98 | in every run tasks start in the order accepted, each is run by exactly one thread until finished, and outstanding is queued plus running |
| `ThreadPool.WaitEmptyWaits` | muses/thread_pool.hpp:101-104 | wait_empty returns only when every task accepted so far has finished |
| `ThreadPool.WorkersLeaveNothingBehind` | muses/thread_pool.hpp:57-66 | a worker exits only when stopped with an empty queue; once nobody is working, every accepted task has finished |
| `ThreadPool.NoLostWakeup` | muses/thread_pool.hpp:57-112 | a queued task beside a waiting worker has a checking worker or a notification on its way; a waiting worker after stop and a drain waiter at zero have a broadcast on its way |
| `ThreadPool.NothingAcceptedAfterStop` | muses/thread_pool.hpp:86-93 | after stop no task is accepted in any continuation |
| `ThreadPool.EnqueueAnswers` | muses/thread_pool.hpp:86-93 | an enqueue adds exactly one task at the back if and only if the pool is not stopped |
| `ThreadPool.WorkerTakes` | muses/thread_pool.hpp:53-66 | a worker at the top of its loop takes the front task if there is one, and otherwise leaves if and only if stopped |
| `ThreadPool.TaskRunsThrough` | muses/thread_pool.hpp:64-69 | a worker with a task runs it to its end, settles the account and comes back to the top of its loop |
| `ThreadPool.ClientAnswers` | muses/thread_pool.hpp:101-111 | wait_empty returns at once if and only if nothing is outstanding, and stop stops the pool |
| `ThreadPool.ClientsReturn` | muses/thread_pool.hpp:86-111 | a client that has enqueued or stopped sends its notification and is done; a woken drainer looks again |
| `RequestScan.Search` | muses/net/reactor.hpp:375-387 | the scanning loop finds the first terminator at or after its start |
| `RequestScan.ReadFindsFirst` | muses/net/reactor.hpp:345-404 | the read that completes a request finds the terminator a search of the whole buffer finds |
| `RequestScan.IncrementalScan` | muses/net/reactor.hpp:338-404 | for every chunking, a terminator has been found if and only if the buffer holds one |
| `RequestScan.SameReadSameOffset` | muses/net/reactor.hpp:345-404 | up to the first hit the scan agrees with a search from the start in the read and in the offset |
| `RequestScan.FramingIff` | muses/net/reactor.hpp:366-422 | the scan position ends just after the first request if and only if the drain was framed |
| `RequestScan.FramedReadsIff` | muses/net/reactor.hpp:338-422 | a drain completes a request if and only if one of its reads does, and the scan position ends just after the first request if and only if the reads are framed |
| `RequestScan.FindHitIsFind` | muses/net/reactor.hpp:375-387 | the scan finds what a string search finds |
| `RequestScan.TruncatedRequest` | muses/net/reactor.hpp:388-422 | two reads that cut the first request inside its terminator |
| `Reactor.Carved` | muses/net/reactor.hpp:439-452 | the request and what stays in the buffer are the bytes that were buffered |
| `Reactor.ReadableOk` | muses/net/reactor.hpp:333-423 | a readable event on an idle connection leaves it in order: conservation of bytes, no complete request left behind, at most one request out |
| `Reactor.FinishOk` | muses/net/reactor.hpp:556-636 | after a response the speculative drain and the buffer check leave no complete request and no unread byte behind |
| `Reactor.ContinueWriteOk` | muses/net/reactor.hpp:526-552 | any partial write, a hard error included, keeps bytes sent plus the parked rest equal to the responses in order, whether the connection stays or is closed |
| `Reactor.HandbackOk` | muses/net/reactor.hpp:516-654 | a hand-back for the request that is out is appended to the responses and written; if the connection closes, its record says what it was sent |
| `ReactorEndings.WritableLeaves` | muses/net/reactor.hpp:526-584 | a write that fails closes, a partial one parks, and after a full response the connection stays if and only if keep-alive was asked for, the peer has not closed and its bytes are within 65536; the next request is then the first complete message among them, or none |
| `ReactorEndings.HandbackLeaves` | muses/net/reactor.hpp:516-654 | the same for a hand-back; an empty response without keep-alive closes |
| `ReactorEndings.ReadableLeaves` | muses/net/reactor.hpp:333-452 | a readable event on an idle connection keeps it if and only if the peer has not closed and its bytes are within 65536, and hands out a request exactly if they hold a complete one |
| `ReactorEndings.ReadableWhileOut` | muses/net/reactor.hpp:333-338 | while a request is out, a readable event only clears its edge |
| `ReactorEndings.AcceptUnderOldEntry` | muses/net/reactor.hpp:280-292 | a new socket under a number whose entry is still there finds the entry as it was |
| `ReactorEndings.OutsideEvents` | muses/net/reactor.hpp:333-490 | a new socket is a fresh connection, bytes that arrive are held with an edge, and a worker's answer goes to the outbox as given |
| `ReactorEndings.EveryEndingHasItsCause` | muses/net/reactor.hpp:333-662 | in every run, every closed connection has its cause among the events: a peer that closed or too many bytes, a failed write, an empty hand-back, a response without keep-alive, or a close from outside |
| `ReactorEndings.AnswersComeFromWorkers` | muses/net/reactor.hpp:454-552 | in every run, every response a connection was given to write is one a worker answered to that request under that number |
| `ReactorRuns.HandbackMatches` | muses/net/reactor.hpp:638-654 | the hand-back taken from the outbox answers the request its connection has out |
| `ReactorRuns.WorkerKeepsFlight` | muses/net/reactor.hpp:454-490 | a worker's answer moves its request to the outbox and loses or duplicates none |
| `ReactorRuns.StepKeepsInv` | muses/net/reactor.hpp:333-662 | an event keeps every connection in order if and only if it is harmless |
| `ReactorRuns.ExecKeepsInv` | muses/net/reactor.hpp:333-662 | every connection stays in order over every run of harmless events |
| `ReactorRuns.StepForgetsNobody` | muses/net/reactor.hpp:333-662 | an event keeps each connection in the table or records it as closed, with all it was sent before |
| `ReactorRuns.ClosedInOrder` | muses/net/reactor.hpp:516-584 | in every run a closed connection was sent a prefix of the responses to its own requests in order, and all of them when it closed without keep-alive, on a failed handler or because the peer had gone |
| `ReactorHazards.ReuseMisdelivers` | muses/net/reactor.hpp:638-654 | a run, harmless up to the last accept, after which a new client that sent nothing is written the old client's response |
| `ReactorHazards.EarlyReuseMisserves` | muses/net/reactor.hpp:638-654 | from every state in order, an accept of a number with a request in flight has a continuation of worker answers, closes and outbox drains that gives the new client an answer, or a close for a failed handler, without a request of its own |
| `ReactorHazards.HarmlessMisservesNobody` | muses/net/reactor.hpp:333-662 | no run of harmless events does that to any client |
| `ReactorHazards.EveryRejectionStrands` | muses/net/reactor.hpp:472-485 | from every state in order, a dropped hand-back of a connection in the table leaves it dispatched with nothing in flight in every continuation that does not close its number |
| `ReactorHazards.RejectionStrands` | muses/net/reactor.hpp:454-485 | a run in which a rejected hand-back leaves the number dispatched in the table with its socket closed; the next client given that number is never answered |
| `ReactorHazards.StrandedForever` | muses/net/reactor.hpp:333-662 | a number dispatched with nothing in flight stays so, with nothing more sent, in every continuation that does not close it |
| `ReactorRuns.OneRequestOut` | muses/net/reactor.hpp:425-584 | in every run a connection has at most one request in worker, outbox or write, and dispatched is true exactly then |
| `ReactorRuns.ResponsesInOrder` | muses/net/reactor.hpp:493-584 | in every run bytes sent are a prefix of the responses to the connection's own requests in request order (section 6.3.2 of RFC 7230) |
| `ReactorRuns.NothingGetsStuck` | muses/net/reactor.hpp:333-636 | in every run an idle connection has no terminator buffered, unread bytes have a pending edge, and requests, buffer and unread bytes are exactly what arrived |
| `Reactor.BufferedTakesFirst` | muses/net/reactor.hpp:622-636 | a request found among buffered bytes is exactly the first one |
| `Reactor.ReadableTakesFirst` | muses/net/reactor.hpp:338-452 | a readable event hands out exactly the first request if and only if its drain was framed |
| `ReactorFraming.ReadableSingleIff` | muses/net/reactor.hpp:338-452 | a readable event hands out a single message if and only if its reads are framed |
| `ReactorFraming.StepSingleIff` | muses/net/reactor.hpp:333-662 | an event leaves workers with nothing but single messages if and only if they had nothing else before and its reads are framed |
| `ReactorFraming.ExecSingleIff` | muses/net/reactor.hpp:333-662 | the same for every run of harmless events |
| `ReactorFraming.MessagesInFront` | muses/net/reactor.hpp:439-451 | requests that are single messages are the first messages of the stream they came from |
| `ReactorFraming.RequestsAreTheMessages` | muses/net/reactor.hpp:333-662 | in every harmless run the requests handed out, on open and closed connections, are exactly the first messages of the bytes that arrived if and only if all drains were framed |
| `ReactorFraming.IdleHasHandedOutAll` | muses/net/reactor.hpp:333-662 | in a framed run an idle connection has handed out every message it has read |
| `Connection.Accepted` | muses/net/reactor.hpp:493-511 | a series of writes never takes more than what remains |
| `Connection.AcceptedIs` | muses/net/reactor.hpp:493-511 | a series of writes takes what is offered before the first write that stops it, up to what remains, and fails if and only if bytes remain then and the socket was not just full |
| `Connection.Connection.DispatchToWorker` | muses/net/reactor.hpp:425-452 | carving in place is the protocol's dispatch |
| `Connection.Connection.ScanNew` | muses/net/reactor.hpp:358-404 | the scan of a new piece with its overlap is one read of the incremental scan |
| `Connection.Connection.ReadAll` | muses/net/reactor.hpp:338-415 | the read loop is the whole drain, and survives exactly when the size limit and the peer allow |
| `Connection.Connection.HandleReadable` | muses/net/reactor.hpp:333-423 | the readable handler is the protocol's step |
| `Connection.Connection.DrainIntoBuffer` | muses/net/reactor.hpp:590-616 | the speculative drain appends exactly the unread bytes or closes |
| `Connection.Connection.CheckBufferedRequest` | muses/net/reactor.hpp:622-636 | dispatches exactly when the buffer holds a complete request |
| `Connection.Connection.FinishResponse` | muses/net/reactor.hpp:556-584 | closing or re-arming, draining and checking is the protocol's step |
| `Connection.Connection.TryWrite` | muses/net/reactor.hpp:493-511 | what the socket took is the next bytes of the response, in order, for any results of the writes |
| `Connection.Connection.Continue` | muses/net/reactor.hpp:526-552 | finishing, parking or closing is the protocol's step |
| `Connection.Connection.HandleHandback` | muses/net/reactor.hpp:638-654 | starting a response, or closing after a failed handler, is the protocol's step |
| `RateLimiter.Limiter.IpRateExceeded` | muses/net/reactor.hpp:305-314 | counts one connection in the address's window and says whether it is over the rate |
| `RateLimiter.Limiter.SweepIpRate` | muses/net/reactor.hpp:222-236 | every ten seconds exactly the windows older than two seconds go, and the blacklist decays by one |
| `RateLimiter.PrunedKeeps` | muses/net/reactor.hpp:228-235 | a sweep drops exactly the windows opened more than two seconds ago |
| `RateLimiter.PruningChangesNoAnswer` | muses/net/reactor.hpp:228-235 | for non-decreasing times, sweeps at any moments change no later answer |
| `RateLimiter.AdmittedWithinAllowance` | muses/net/reactor.hpp:305-314 | an address gets no more within-rate answers in a second than its window leaves it |
| `RateLimiter.AtMostTwiceTheRate` | muses/net/reactor.hpp:305-314 | at most twice the rate in any half-open second, and one less than that after the first second of the clock |
| `RateLimiter.RefusedForAReason` | muses/net/reactor.hpp:305-314 | a connection is refused only if its address has made more than the rate of connections, this one included, within less than a second |
| `RateLimiter.BoundIsReached` | muses/net/reactor.hpp:305-314 | for every positive rate and address an ordered run reaches one less than twice the rate |
| `PoolSpec.LinkFits` | muses/memory_pool.hpp:217-226 | the free-list link stays inside its block even for a one-byte class |
| `PoolSpec.PickClass` | muses/memory_pool.hpp:236-241 | the smallest class that fits |
| `PoolSpec.CarvedLayout` | muses/memory_pool.hpp:263-271 | carving adds one aligned block at the end and keeps the carved part tiled |
| `PoolSpec.AllocateKeepsInv` | muses/memory_pool.hpp:117-138 | allocation keeps layout, free lists, counts and statistics, and hands out a block that was free |
| `PoolSpec.AllocatePrefers` | muses/memory_pool.hpp:117-138 | the head of the free list of the smallest class that fits, else the bump pointer, else the global allocator; nothing else moves |
| `PoolSpec.RecycledIsReusedFirst` | muses/memory_pool.hpp:117-163 | the block recycled last is the next one handed out for its class, without carving or escaping |
| `PoolSpec.StatusKeepsInv` | muses/memory_pool.hpp:141-155 | reference count changes keep everything else in order |
| `PoolSpec.RecycleKeepsInv` | muses/memory_pool.hpp:153-163 | recycling keeps layout, free lists, counts and statistics |
| `PoolPtr.Step` | muses/memory_pool.hpp:312-369 | every handle operation keeps each block's count equal to the handles naming it |
| `PoolPtr.StepEffect` | muses/memory_pool.hpp:320-364 | copies, moves, assignments and reset redirect the handles as named, and no block is lost or changes its class |
| `PoolPtr.LayoutInEveryRun` | muses/memory_pool.hpp:117-138 | in every run blocks are aligned, in bounds, pairwise disjoint and tile the carved part; each free list holds exactly the free blocks of its class, each once |
| `PoolPtr.RefcountsInEveryRun` | muses/memory_pool.hpp:141-164 | in every run a block is live exactly while handles name it, its count is their number, and live and escaped count the blocks not given back |
| `PoolPtr.RecycledOncePerUse` | muses/memory_pool.hpp:149-163 | in every run a slot has been recycled once per hand-out except the current one, and only when no handle names it |
| `PoolPtr.SharedBlockSurvivesAssignment` | muses/memory_pool.hpp:329-337 | assigning between two handles of one block changes nothing; the block stays live between reset and retain |
| `PoolPtr.RecycledToItsOwnBin` | muses/memory_pool.hpp:282-294 | after any run a recycled block joins the head of the list of the class it was carved for |
| `MemoryPool.Normalized` | muses/memory_pool.hpp:88-96 | classes are strictly increasing and exactly the positive requested ones, or 64 |
| `MemoryPool.ArenaFits` | muses/memory_pool.hpp:250-258 | the arena is aligned, has room for a block of any class, and is the request less a part of the largest block, or one such block |
| `MemoryPool.LinkedFrame` | muses/memory_pool.hpp:222-234 | writing a word that is no list's link leaves the lists as they were |
| `MemoryPool.LinkedUnique` | muses/memory_pool.hpp:222-234 | the memory determines each free list: following links ends at null and visits one sequence of slots |
| `MemoryPool.OffTheLists` | muses/memory_pool.hpp:217-226 | a block in use shares no word with any free slot |
| `MemoryPool.MemoryPool.constructor` | muses/memory_pool.hpp:86-103 | a new pool is empty, with normalised classes and an arena of whole units |
| `MemoryPool.MemoryPool.FindClass` | muses/memory_pool.hpp:236-241 | the scan finds the smallest class that fits |
| `MemoryPool.MemoryPool.PopFree` | muses/memory_pool.hpp:228-234 | takes the head off one list and keeps every list linked and counted |
| `MemoryPool.MemoryPool.PushFree` | muses/memory_pool.hpp:222-226 | writes one link word, one head and one count |
| `MemoryPool.MemoryPool.CarveFromArena` | muses/memory_pool.hpp:263-271 | advances the bump pointer by the stride, or leaves it when the arena is full |
| `MemoryPool.MemoryPool.Allocate` | muses/memory_pool.hpp:117-138 | the concrete pool follows the abstract allocation: reuse, carve or escape |
| `MemoryPool.MemoryPool.Retain` | muses/memory_pool.hpp:141-146 | one more reference, refused without the magic number |
| `MemoryPool.MemoryPool.Release` | muses/memory_pool.hpp:150-164 | one reference less, recycling on the last; a block already recycled is refused |
| `MemoryPool.MemoryPool.RecycleToBin` | muses/memory_pool.hpp:282-294 | poisons the header and threads the slot onto its list |
| `MemoryPool.MemoryPool.DeleteEscaped` | muses/memory_pool.hpp:156-159 | an escaped block leaves both statistics and its header goes |
| `MemoryPool.MemoryPool.UserWrite` | muses/memory_pool.hpp:115-118 | writing anywhere in a live block's usable region changes nothing the pool keeps |
| `MemoryPool.MemoryPool.FreeListInOrder` | muses/memory_pool.hpp:185-234 | in memory each bin's links visit exactly the free blocks of its class, each once, as many as its free count |
| `MemoryPool.MemoryPool.RecycledCount` | muses/memory_pool.hpp:169-181 | free counts of all bins and blocks in use add up to the blocks carved |
| `PooledBuffer.PooledBuffer.constructor` | muses/memory_pool.hpp:412-415 | an empty buffer of the initial capacity, or of none when the block is refused |
| `PooledBuffer.PooledBuffer.Reserve` | muses/memory_pool.hpp:454-469 | the contents are kept and the bytes copied are charged; a refused block changes nothing |
| `PooledBuffer.PooledBuffer.Append` | muses/memory_pool.hpp:472-484 | appends exactly the bytes, or fails and keeps the contents if and only if growth is needed and refused; the growth loop ends; bytes ever copied plus the initial capacity stay within the capacity, which stays below twice the larger of initial capacity and peak |
| `PooledBuffer.PooledBuffer.DropFront` | muses/net/reactor.hpp:443-451 | moving the leftover to the front keeps exactly the bytes after the request |
| `PooledBuffer.PooledBuffer.ResetForReuse` | muses/memory_pool.hpp:488-491 | empties the buffer and keeps its block |
| `PooledBuffer.AppendAll` | muses/memory_pool.hpp:454-484 | any sequence of appends leaves their concatenation, with the amortised bounds |
| `HttpRequest.ParseRequest` | muses/net_components/http_handler.hpp:82-110 | the stream loop computes the parse function |
| `RequestLines.LineSetsHeader` | muses/net_components/http_handler.hpp:93-103 | appended to the lines of any request, a line with a colon and a space sets exactly its header to exactly its value, a line with a colon alone does the same, and a line without a colon changes nothing |
| `RequestLines.RequestWithoutLines` | muses/net_components/http_handler.hpp:82-110 | a request without header lines has no headers, and its three parts and body as written |
| `RequestLines.IncompleteStart` | muses/net_components/http_handler.hpp:82-91 | a start line that breaks off leaves the parts that are there, no headers and no body |
| `HttpRequest.ParseIsPrintable` | muses/net_components/http_handler.hpp:82-110 | whatever the input, the parsed fields can be printed and read back |
| `HttpRequest.ReadPrinted` | muses/net_components/http_handler.hpp:82-110 | printable fields read back unchanged in any header order |
| `HttpRequest.RoundTripIffPrintable` | muses/net_components/http_handler.hpp:82-110 | printing and parsing undo each other exactly on the printable infos |
| `HttpRequest.ParsePrintParse` | muses/net_components/http_handler.hpp:82-110 | for every input string, printing the parsed fields and parsing again gives the same fields |
| `HttpResponse.EndOfHead` | muses/net_components/proxy.hpp:533-536 | in a printed message whose start line hides no blank line and whose headers are one line each, the first blank line ends the head |
| `HttpResponse.ResponseReadsBack` | muses/net_components/http_handler.hpp:158-173 | a built response read back by the parser, whatever follows it, gives the status in decimal, its text, exactly three headers with the content type, the body's length in decimal and the keep-alive word, and the body |
| `HttpResponse.StatusReadsBack` | muses/net_components/http_handler.hpp:158-173 | a status from 100 to 999 is announced as its hundreds, tens and ones |
| `Text.SignedDenotes` | muses/net_components/http_handler.hpp:164-170 | a printed number is the decimal notation of that number: digits worth their places, no needless zeros, a sign if negative |
| `HttpResponse.KeepAliveIff` | muses/net_components/http_handler.hpp:53-59 | keep-alive is wanted unless the Connection header mentions close anywhere, or there is none and the version is not HTTP/1.1 |
| `HttpResponse.KeepAliveAnnounced` | muses/net_components/http_handler.hpp:53-59 | the keep-alive decision read from a built response is the one it was built with |
| `HttpResponse.LengthAnnounced` | muses/net_components/http_handler.hpp:158-173 | a built response announces the length of its body, whatever follows it |
| `HttpResponse.DecimalReadsBack` | muses/net_components/proxy.hpp:560-561 | a printed length below two to the 64 reads back |
| `HttpResponse.StoullReads` | muses/net_components/proxy.hpp:460-463 | digits behind spaces and a sign, whatever follows, are read by the worth of their places; a minus wraps at two to the 64, and a number that does not fit is none |
| `HttpResponse.StoullFails` | muses/net_components/proxy.hpp:460-463 | without a digit behind the spaces and the sign there is no number |
| `HttpResponse.AnnouncedIs` | muses/net_components/proxy.hpp:457-463 | no Content-Length, or an empty one, announces nothing; a number that cannot be read announces an empty body |
| `HttpResponse.TakeBuilt` | muses/net_components/proxy.hpp:531-567 | a built response is taken off any stream with exactly its body |
| `HttpResponse.BodiesRecovered` | muses/net_components/proxy.hpp:531-567 | splitting a concatenation of responses by first blank line and Content-Length recovers the bodies in order (section 3.3.3 of RFC 7230) |
| `Proxy.IEquals` | muses/net_components/proxy.hpp:403-410 | true if and only if the names have the same length and at every position the same character or the same letter in either case |
| `Proxy.IsHopByHop` | muses/net_components/proxy.hpp:413-421 | true if and only if the name is hop-by-hop |
| `Proxy.HopByHopIff` | muses/net_components/proxy.hpp:413-421 | the eight names of section 6.1 of RFC 7230 that the program lists, each in every casing, and no other |
| `Proxy.EndToEndNames` | muses/net_components/proxy.hpp:413-421 | names such as Host and Content-Length stay, names such as Connection and TE do not |
| `Proxy.HeaderGetFirst` | muses/net_components/proxy.hpp:396-402 | the lookup takes the first matching name in iteration order, and finds nothing when none matches |
| `Proxy.HeaderGetUnique` | muses/net_components/proxy.hpp:396-402 | when one name matches, the lookup finds it in any iteration order |
| `Proxy.KeptLines` | muses/net_components/proxy.hpp:497-504 | the loop prints exactly the headers that are not hop-by-hop, in order |
| `Proxy.RewriteRequest` | muses/net_components/proxy.hpp:496-507 | the forwarded request in the program's order of parts |
| `Proxy.RewriteReadsBack` | muses/net_components/proxy.hpp:496-507 | for every client input and every body, the rewritten request parses to the client's method, URL, version, end-to-end headers with X-Forwarded-Proto set to http, and that body |
| `Forwarding.ParsedBodyIff` | muses/net_components/proxy.hpp:450-468 | the parser's body is the bytes after the first CR LF CR LF if and only if the start line ends by then and no blank line comes earlier, or there is no start line and nothing follows |
| `Forwarding.ParseExtends` | muses/net_components/proxy.hpp:456-472 | a head whose start line is complete is parsed the same whatever is read after it, which is body |
| `Forwarding.RewritePreservesRequest` | muses/net_components/proxy.hpp:450-507 | the upstream parses the client's method, URL, version and end-to-end headers and the body the program took from the head and later reads; that body is the client's if and only if the head is clean |
| `Forwarding.ForwardedLines` | muses/net_components/proxy.hpp:496-507 | the lines of a forwarded head are one for every header of the request that is not hop-by-hop, with its value, then X-Forwarded-Proto, and none with a hop-by-hop name |
| `Forwarding.BackendReadsTheClients` | muses/net_components/proxy.hpp:450-507 | as the parser reads requests, taking all that follows the head for the body: when the start line ends in the head, the upstream reads what the client sent, end to end, if and only if the head is clean |
| `Forwarding.SameLookup` | muses/net_components/proxy.hpp:396-402 | the rewrite changes nothing about which Content-Length a lookup in line order finds |
| `Forwarding.UpstreamSplits` | muses/net_components/proxy.hpp:450-507 | framed by Content-Length, the upstream takes the announced number of forwarded bytes as the body and the others as what follows, or waits when there are too few |
| `Forwarding.UpstreamReadsOneRequestIff` | muses/net_components/proxy.hpp:456-507 | framed by Content-Length, the upstream's first request has the body of the client's first request, and nothing follows it if and only if the read of the head did not reach past that body |
| `Forwarding.PipelinedBytesAreForwarded` | muses/net_components/proxy.hpp:464-507 | any bytes read behind a request without headers are forwarded unchanged behind it, where the upstream finds them as the next request |
| `Forwarding.BareBlankDropsBytes` | muses/net_components/proxy.hpp:464-472 | for every start line and every text without carriage returns, a request with a bare blank line whose text up to the later CR LF CR LF is parsed as body and not forwarded |
| `LruSpec.ExecKeepsCache` | muses/lru_cache.hpp:60-141 | in every run keys are distinct and within capacity |
| `LruSpec.OnCachedKey` | muses/lru_cache.hpp:60-141 | on a cached key a hit moves its entry to the front, a put also sets its value, an erase takes it out, and the others keep value and order |
| `LruSpec.OnAbsentKey` | muses/lru_cache.hpp:60-141 | on an absent key only a put changes anything: it goes in front, and the last entry makes room in a full cache |
| `LruSpec.LastPutWins` | muses/lru_cache.hpp:60-141 | after any run a cached key has the value it was last put with, and was not erased or cleared since |
| `LruSpec.LargerCacheHitsToo` | muses/lru_cache.hpp:60-141 | given any run, the smaller cache's entries are in order among the larger's, and every hit in it is the same hit in the larger |
| `LruSpec.TouchedKeySurvives` | muses/lru_cache.hpp:60-141 | after a put or a hit from any reachable cache, the key stays cached if and only if fewer than the capacity of distinct other keys have been put or hit since |
| `LruCache.LruCache.Get` | muses/lru_cache.hpp:60-66 | the value of the key, promoted to the front |
| `LruCache.LruCache.Promote` | muses/lru_cache.hpp:113-116 | splicing moves one entry to the front and keeps list and index in step |
| `LruCache.LruCache.Put` | muses/lru_cache.hpp:119-134 | update and promote, or evict the least recent and insert; nothing at capacity 0 |
| `LruCache.LruCache.EvictLru` | muses/lru_cache.hpp:137-141 | the last entry goes from list and index |
| `LruCache.LruCache.Contains` | muses/lru_cache.hpp:81-84 | membership, without promotion |
| `LruCache.LruCache.Erase` | muses/lru_cache.hpp:87-94 | removes exactly the key from list and index |
| `LruCache.LruCache.Clear` | muses/lru_cache.hpp:96-100 | empties list and index |
| `LruCache.LruCache.Size` | muses/lru_cache.hpp:102-105 | list length and index size agree and are within capacity |
| `BloomSpec.AddFormula` | muses/bloom_filter.hpp:98-105 | adding raises each counter by its probe hits, repeated probes included, capped at 15 |
| `BloomSpec.RemoveFormula` | muses/bloom_filter.hpp:121-134 | removing lowers each counter by its probe hits, floored at 0 |
| `BloomSpec.RemoveUndoesAdd` | muses/bloom_filter.hpp:98-134 | remove undoes add if and only if no probed non-zero counter passes 15 |
| `BloomSpec.ExactAfterStep` | muses/bloom_filter.hpp:98-134 | an operation keeps counters exact if and only if it neither overflows nor removes what is absent |
| `BloomSpec.CountersAreExact` | muses/bloom_filter.hpp:98-134 | each counter is the multiset sum of probe hits throughout a history if and only if every operation of it keeps the counters exact |
| `BloomSpec.FaithfulKeepsExact` | muses/bloom_filter.hpp:98-134 | removing only what is present and staying within 15 is enough |
| `BloomSpec.NoFalseNegatives` | muses/bloom_filter.hpp:98-134 | in every such history no present item is reported absent |
| `BloomSpec.SaturationForgets` | muses/bloom_filter.hpp:98-134 | from any filter of any size, for every number of adds above 15, a history after which a present item is reported absent |
| `BloomSpec.AbsentRemoveForgets` | muses/bloom_filter.hpp:98-134 | for every two items that share a slot, a history of removes of the absent one after which the present one is reported absent |
| `BloomSpec.DecaysAddUp` | muses/bloom_filter.hpp:140-155 | decay by a then b is decay by a plus b |
| `BloomSpec.DecayHalves` | muses/bloom_filter.hpp:140-155 | decay halves every counter as often as it shifts, rounding down, and leaves nothing from four shifts on |
| `BloomSpec.AgingEmptiesFilter` | muses/bloom_filter.hpp:121-155 | without adds, removes and decays of total shift four or more empty the filter |
| `BloomFilter.StoreUpdates` | muses/bloom_filter.hpp:208-223 | storing one nibble changes that slot and no other |
| `BloomFilter.ShiftedCounters` | muses/bloom_filter.hpp:148-154 | shifting a packed byte shifts both counters |
| `BloomFilter.ProbesWalk` | muses/bloom_filter.hpp:202-204 | the probes walk from the first hash on in strides of the second, wrapping at two to the 64, reduced to a slot |
| `BloomFilter.MixedUnmixes` | muses/bloom_filter.hpp:191-199 | where product and high half differ the second hash can be unmixed, and where they cancel out it is a constant |
| `BloomFilter.StrideSamples` | muses/bloom_filter.hpp:191-199 | the second hashes of some first ones |
| `BloomFilter.CountingBloomFilter.constructor` | muses/bloom_filter.hpp:83-91 | an even number of slots, at least one hash, all counters zero |
| `BloomFilter.CountingBloomFilter.SetCounter` | muses/bloom_filter.hpp:216-223 | one counter takes the value |
| `BloomFilter.CountingBloomFilter.GetCounter` | muses/bloom_filter.hpp:208-214 | the counter of the slot |
| `BloomFilter.CountingBloomFilter.Add` | muses/bloom_filter.hpp:98-105 | the counters after adding the item's probes |
| `BloomFilter.CountingBloomFilter.Contains` | muses/bloom_filter.hpp:109-116 | true if and only if every probed counter is non-zero |
| `BloomFilter.CountingBloomFilter.Remove` | muses/bloom_filter.hpp:121-134 | the counters after removing the item's probes, and whether any changed |
| `BloomFilter.CountingBloomFilter.Decay` | muses/bloom_filter.hpp:140-155 | every counter shifted, zero from shift four on |
| `BloomFilter.CountingBloomFilter.Clear` | muses/bloom_filter.hpp:158-161 | every counter zero |

## Left out

- RingQueue.Ring.TryPop: requires a ring that is not stuck, because on the stuck ring of one cell the program's loop does not end (`PopSpins`).
- RingQueue.Ring.EvictOne: requires a ring that is not stuck, for the same reason.
- RingQueue.Ring.Release: requires a ring that is not stuck, for the same reason.
- Cursor wrap-around: positions are unbounded naturals, so the signed difference of sequence and position is exact.
- Weak memory orders and cache-line padding: the steps of the ring are sequentially consistent.
- The ring's `wait_pop` and its semaphore: `try_pop` takes no permit and a woken consumer can meet an unpublished front cell, so its wakeups give no guarantee to state.
- Reactor.Step: the environment is abstract, and runs are of events that can happen. A readable edge is assumed when bytes arrive while the descriptor is armed for reading, and handling one event is one step because arrivals during it can be counted as arriving before it, with a spurious edge. Maps of connections are values; a connection updated in place is the class `Connection`.
- Pollers, sockets, `accept_all` batching and connection caps: system calls and kernel behaviour outside the program.
- Idle sweeps and closed events: they only close connections, which the model allows at any time.
- MemoryPool.MemoryPool.Release: a block of size class 65535, whose index equals the tag of escaped blocks, is excluded; the program would give it to the global allocator.
- PoolPtr.RecycledToItsOwnBin: describes the program for at most 65535 classes; blocks of class index 65535 carry the tag of escaped ones and go to the global allocator.
- PoolPtr.LayoutInEveryRun: describes the program for at most 65535 classes, for the same reason.
- MemoryPool: the arena is an array of machine words and headers are a table beside it; alignment of the arena's base, the slot size and padding fields and exceptions of the global allocator are not modelled. A release updates the statistics and the free list in one step, after the decrement.
- Thread pool futures, argument binding and tasks that throw.
- HttpResponse.TakeBuilt: the splitter, like that of `BodiesRecovered`, is the one of section 3.3.3 of RFC 7230. The program's loop keeps whatever it has read past the announced length (muses/net_components/proxy.hpp:559-566).
- HttpResponse: chunked bodies, reads to end of stream, retries and upstream pools of the proxy.
- Bloom sizing formulas and the approximate count: floating point. The number of slots and hashes are parameters, and the item hash is a parameter.
- `ThreadSafeQueue`, logger, profiler, coroutines, file reading, content types, path resolution, `ReactorPool`: thin wiring, I/O, or easy members.
