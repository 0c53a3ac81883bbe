# Verified model of the distributed runtime

A Dafny 4.11 model of the parts of ds4 where a mistake is hard to see: the protocol that runs one
model across several machines, the layer packer, and the streaming and framing code of the
command line and the evaluator. Verify the project with `dafny verify dfyconfig.toml`.

How the pieces fit together:

- **Distributed prefill.** `PrefillPipeline` is a state machine over the regions that the program runs
  under a lock and over its channel operations: a producer and a sender thread around a slot ring, a
  chain of workers that receive, evaluate, forward and relay, and a result reader. `PrefillSafety`
  proves its invariant over every interleaving, failures included, `PrefillLedger` that no worker loses a
  request, and `PrefillFailures` what failures do to sessions, sender and relays. `PrefillProgress` proves that
  without failures nothing gets stuck, every run ends, and every worker then holds the prompt. The ring, the
  worker's session and its queues are also modelled as the objects they are in the source (`SenderRing`,
  `WorkerSession`, `Forwarder`, `JobQueue`), and `PrefillPlan` and `TokenHash` hold chunking and hashing.
- **Routes.** `RouteSearch` is the backtracking search, `RoutePlan` the planner, `RouteBlob` the wire
  format with its three readers, `LayerRoute` the independent check made for snapshots.
- **Snapshots.** `KvSizes`, `KvPayload`, `KvShard`, `KvSnapshot` (load) and `KvSave` model sizes, formats
  and both directions; `KvTopology` proves that files do not depend on the cluster.
- **Results on the way back.** `Relay` models the relay's frame rewriting over the pending queue.
- **Activations and logits.** `Half` and `Fp8` are the two codecs, `Activations` the payload loops,
  `TopLogprobs` the top-k insertion.
- **Packing.** `LayerPack` is the greedy packer with its exchange argument.
- **Text.** `ThinkSplitter` is the tag scanner that `EvalStream` and `TokenPrinter` run incrementally;
  `TraceText`, `TraceFraming` and `TraceRoundTrip` are the trace format; `Utf8` and `JsonText` the checker
  and the string writer.
- **Shared.** `Bytes` holds the fixed-width words, `Layouts` says where every field of the binary formats
  lies, `LinkedList` holds the nodes behind the worker's two queues, `Wrappers` the option type.

Conventions. A mutex-protected region is one atomic step and a condition wait is a guard. Channels are
reliable FIFO queues; a thread that never acts again stands for a closed connection. Engine calls are
parameters: a successful evaluation appends the frame's tokens to the timeline, a failed one may leave
any timeline, a successful reset empties it and a failed one leaves it alone. Request ids are unbounded, and
so are chunk positions, which `PrefillPlan.Span.NoWrap` justifies.
Fixed-width arithmetic is written out where it matters: the 64-bit hash, checked 64-bit sizes, 32-bit
frame sizes. Cursors over a buffer are modelled as the suffix not yet read. Some lemmas take a function
parameter together with a predicate that ties it to a definition (`Format`, `Marks.read`, `off`, `find`, `copy`,
`out`, `run`); the instances are given by `RouteBlob.Wire`, `TraceRoundTrip.Trace` and at the call sites.

Where code and documentation differ the code is followed: the f32 to f8 encoder rounds ties upwards, and a
session file with trailing bytes is refused only after all its shards have been delivered
(`KvSnapshot.Loads`).

## Model

| member | source | states |
|---|---|---|
| TokenHash.Mix | ds4_distributed.c:1495-1502 | one FNV-1a step changes only the low eight bits of the state before the product: they become their exclusive or with the byte |
| TokenHash.XorBits | ds4_distributed.c:1495-1502 | a bit of the exclusive or is set exactly when it is set in one of the two numbers |
| TokenHash.CheckValue | ds4_distributed.c:1495-1502 | from the standard offset basis the letter a hashes to the published check value of 64-bit FNV-1a |
| TokenHash.ProductInjective | ds4_distributed.c:1495-1502 | the wrapping 64-bit product by the FNV prime loses nothing: equal products come from equal factors |
| TokenHash.UpdateSpanSplit | ds4_distributed.c:1504-1507 | updating over two spans one after the other is updating over their concatenation |
| TokenHash.UpdateSpanInjective | ds4_distributed.c:7281-7285 | for a fixed span two result hashes are equal if and only if the two prefix hashes were |
| TokenHash.UpdateToken | ds4_distributed.c:1495-1502 | the four-byte loop is FNV-1a over the token's little-endian bytes |
| TokenHash.HashSpan | ds4_distributed.c:1504-1507 | the token loop is FNV-1a over the concatenated little-endian tokens, from any starting state |
| TokenHash.HashPrefix | ds4_distributed.c:1509-1511 | the prefix hash is the span hash from this program's own initial value |
| PrefillPlan.Span.BoundStep | ds4_distributed.c:3593-3602 | chunk boundaries step by the cap until the span end, and chunk i exists exactly while boundary i lies before the end |
| PrefillPlan.Span.Ends | ds4_distributed.c:3593-3602 | the first boundary is the span start, the last one the span end, and there is at least one chunk |
| PrefillPlan.Span.FrameChains | ds4_distributed.c:3643-3720 | each frame ends on the hash the next one starts from, and the tokens of a frame continue the prefix it names |
| PrefillPlan.Span.FrameIs | ds4_distributed.c:3685-3693 | frame i starts at the span start plus i caps, holds a cap of tokens (the last one what is left) from the prompt, names the prompt's hashes at its two ends, resets exactly if it is the first and a reset is asked for, and asks for a bare acknowledgement exactly if that is enabled and it is not the last |
| PrefillPlan.Span.NoWrap | ds4_distributed.c:3286-3292 | the 32-bit products and sums of chunk positions never wrap on a span that is pipelined |
| PrefillPlan.ExpectedHashes | ds4_distributed.c:3593-3602 | the loop that precomputes the reader's hashes gives the prompt-prefix hash at every chunk boundary |
| WorkerSession.StepKeepsSound | ds4_distributed.c:7467-7519 | every WORK frame, reset, engine failure and snapshot load keeps: a trusted hash is the hash of the session timeline |
| WorkerSession.RunKeepsSound | ds4_distributed.c:7467-7519 | the same over every sequence of such events |
| WorkerSession.EngineRunsExactlyOnPrefix | ds4_distributed.c:7467-7519 | the engine runs a frame if and only if it has tokens, ends within the context, all tokens are at most 0x7fffffff and in the vocabulary, the span hashes from prefix hash to result hash, a requested reset succeeded, and the timeline it continues hashes to the prefix hash; on success the timeline grows by exactly the frame's tokens; otherwise it is unchanged or reset |
| WorkerSession.MalformedIsRefused | ds4_distributed.c:7238-7285 | a frame without tokens, past the context, outside the vocabulary or with disagreeing hashes is refused for the first of these reasons and touches nothing |
| WorkerSession.WellFormedIsTried | ds4_distributed.c:7467-7519 | any other frame is refused at a failed reset or on another prefix, or the engine runs; the new session state is given for each outcome |
| WorkerSession.RestoresExactlyWhatIsClaimed | ds4_distributed.c:7015-7152 | a snapshot reaches the engine if and only if its tokens fit the context and the vocabulary and hash to the claimed hash; then the timeline is its tokens or the hash is untrusted; otherwise nothing changes |
| WorkerSession.RunKeepsVocabulary | ds4_distributed.c:7267-7280 | over every sequence of events no evaluation and no restore puts a token outside the vocabulary into a session's timeline |
| WorkerSession.ReplayReaches | ds4_distributed.c:2948-2987 | failure-free frames from a prefix the worker is on, or from a reset, take it to the end of the span |
| WorkerSession.ReplayFromZeroRestoresTranscript | ds4_distributed.c:2948-2987 | a failure-free replay from position 0 takes a worker from any state at all to exactly the transcript, with a trusted hash |
| WorkerSession.Session.Process | ds4_distributed.c:7238-7519 | the field updates of one WORK frame, from the token checks on, are the transition whose refusals and outcomes MalformedIsRefused and WellFormedIsTried state |
| WorkerSession.Session.Restore | ds4_distributed.c:6984-7160 | a snapshot load is the transition that RestoresExactlyWhatIsClaimed states: the timeline is replaced and the claimed hash trusted only after checking it; a failed engine call leaves the hash untrusted |
| SenderRing.WrapIsMod | ds4_distributed.c:3171-3187 | advancing an index and wrapping once is the remainder modulo the slot count |
| SenderRing.FillIsExclusive | ds4_distributed.c:3152-3187 | with room in the ring the slot being filled is none of the queued slots, so filling leaves every queued frame as it was |
| SenderRing.PublishAppends | ds4_distributed.c:3171-3187 | publishing a slot appends its frame to the queue and keeps tail = head + queued modulo the slot count |
| SenderRing.ReleaseDropsOldest | ds4_distributed.c:3206-3266 | releasing a slot removes the oldest frame and nothing else |
| SenderRing.TakeIsOldest | ds4_distributed.c:3206-3266 | the slot the sender reads outside the lock holds the oldest queued frame |
| SenderRing.PrefillSender.AcquireSlot | ds4_distributed.c:3152-3169 | the slot handed to the producer is none of the queued ones |
| SenderRing.PrefillSender.FillSlot | ds4_distributed.c:3656-3701 | writing the slot leaves the queue of published frames unchanged |
| SenderRing.PrefillSender.EnqueueSlot | ds4_distributed.c:3171-3187 | the filled frame is appended unless the sender stopped |
| SenderRing.PrefillSender.TakeSlot | ds4_distributed.c:3206-3236 | gives the oldest frame, or nothing when stopped or drained |
| SenderRing.PrefillSender.ReleaseSlot | ds4_distributed.c:3236-3266 | frees the oldest slot |
| Forwarder.WithoutAt | ds4_distributed.c:6374-6396 | removal takes out the first request with the id and leaves the order of all others |
| Forwarder.WithSendTimeAt | ds4_distributed.c:6398-6412 | the send time is recorded in the first request with the id and nowhere else |
| Forwarder.PendingQueue.Enqueue | ds4_distributed.c:6319-6348 | appends at the tail, or refuses when closing; head, tail, links and count stay well formed and within the depth |
| Forwarder.PendingQueue.Pop | ds4_distributed.c:6350-6372 | answers the oldest unanswered request and keeps the rest in order |
| Forwarder.PendingQueue.Remove | ds4_distributed.c:6374-6396 | removes from anywhere in the list, fixing the tail and count, and reports whether it was there |
| Forwarder.PendingQueue.NoteSendDone | ds4_distributed.c:6398-6412 | updates one request in place and keeps the list |
| Forwarder.PendingQueue.Clear | ds4_distributed.c:6414-6428 | empties the list |
| JobQueue.Queue.Enqueue | ds4_distributed.c:7696-7714 | appends while open; a closed queue takes nothing in; never more than the depth |
| JobQueue.Queue.Pop | ds4_distributed.c:7716-7733 | hands out the oldest job; null exactly when canceled, or closed and drained |
| JobQueue.Queue.Finish | ds4_distributed.c:7678-7684 | stops intake and keeps the waiting jobs |
| JobQueue.Queue.Cancel | ds4_distributed.c:7686-7694 | drops what waits |
| JobQueue.Queue.Drain | ds4_distributed.c:7735-7755 | after a finish the evaluation loop hands out every accepted job once and in order; the first failing one cancels the rest |
| PrefillPipeline.Config.PlannedIsValid | ds4_distributed.c:3513-3600 | the frames a span prescribes have contiguous request ids and only inner chunks ask for a bare acknowledgement |
| PrefillSafety.StepKeepsInv | ds4_distributed.c:3206-3419 | the pipeline invariant (ring, frames in flight, evaluated sets, replies, progress) is kept by every action of every thread, failing ones included |
| PrefillSafety.RunKeepsInv | ds4_distributed.c:3513-3778 | it holds in every state of every interleaving, from workers in any session state |
| PrefillSafety.Staircase | ds4_distributed.c:3206-3419 | wherever the invariant holds: accepted <= evaluated by the last worker <= ... <= evaluated by the first <= sent <= submitted <= accepted + window, as sets of request ids and as counts |
| PrefillSafety.RunsAreStaircases | ds4_distributed.c:3206-3419 | the staircase holds in every state of every interleaving, from workers in any session state |
| PrefillSafety.AcceptedChunkWasEvaluatedEverywhere | ds4_distributed.c:3343-3419 | wherever the invariant holds, chunk i is accepted only with request id first+i and its planned hash, when every worker has evaluated chunks 0..i, and its reply carries one telemetry record of every hop; it is a bare acknowledgement exactly if the frame asked for one, never for the last chunk, otherwise logits on a route with an output head and the hidden state on one without |
| PrefillSafety.RunsAcceptInStep | ds4_distributed.c:3343-3419 | so it is whenever a step of any run lets the reader accept a reply |
| PrefillSafety.ReaderChecks | ds4_distributed.c:3343-3419 | whatever reply arrives, the reader takes it if and only if it reports success for the next chunk with the planned hash and is of a usable kind (no acknowledgement for the last chunk, no hidden state on a route with an output head); any other one makes it fail |
| PrefillSafety.AcceptsExactly | ds4_distributed.c:3383-3419 | wherever the invariant holds the reader accepts a reply if and only if it reports success and answers the next chunk; kind and hash are then right |
| PrefillSafety.RunsFinishOnAResult | ds4_distributed.c:3756-3770 | in every state of every run in which all chunks are accepted the kind kept for the coordinator is logits on a route with an output head and the hidden state on one without, never an acknowledgement |
| PrefillSafety.FailureIsFinal | ds4_distributed.c:3343-3419 | once the reader has failed, no run accepts another chunk |
| PrefillLedger.NoRequestIsLost | ds4_distributed.c:6437-6632 | in every state of every run, failures included, a request a worker took from its prefetch queue is in its hand, waits for the reply from downstream, or was answered upstream, and only requests that were taken are answered |
| PrefillFailures.SessionStep | ds4_distributed.c:7467-7519 | only an evaluation changes a worker's session, as the frame and the engine's answer prescribe; an evaluated frame goes on, any other one is answered with an error at once |
| PrefillFailures.SessionsAreRuns | ds4_distributed.c:7467-7519 | in every state of every run a worker's session is what the frames it was given, in order, make of the one it started with, under the session rules above |
| PrefillFailures.SessionsStaySound | ds4_distributed.c:7467-7519 | so in every worker of every run a trusted hash stays the hash of the timeline, whatever fails |
| PrefillFailures.StopStep | ds4_distributed.c:3643-3705 | the sending side is stopped by a failure of the local slice, a failed send, or a reader that ended before everything was submitted, and by nothing else |
| PrefillFailures.StoppedSendsNoMore | ds4_distributed.c:3152-3266 | after a stop no run submits another chunk, and at most the frame being written still goes out |
| PrefillFailures.RelayCloses | ds4_distributed.c:6437-6540 | a relay closes on a reply nobody waits for or that answers another request than the oldest one, and on nothing else in the model; closed, it forwards nothing and takes nothing in |
| PrefillFailures.ClosedRelayStaysClosed | ds4_distributed.c:6319-6348 | once a relay has closed, no run forwards another reply through it |
| PrefillFailures.ForwardStep | ds4_distributed.c:6718-6795 | a forwarded frame arrives behind the others downstream and its request stays pending; one that cannot be sent is answered with an error and its request alone is taken out of the pending queue |
| PrefillSafety.WaitsExactly | ds4_distributed.c:3152-3341 | wherever the invariant holds the producer waits exactly while a full window is unanswered with more to submit and the reader going on, or while the ring is full, and the sender exactly while nothing is queued and more may come |
| PrefillSafety.SlotsAreExclusive | ds4_distributed.c:3656-3701 | in no reachable state do the producer and the sender use the same slot outside the lock |
| PrefillSafety.SendsInChunkOrder | ds4_distributed.c:3206-3266 | the next frame on the wire is always the next chunk of the plan: in order, each at most once |
| PrefillSafety.TrailLists | ds4_distributed.c:6520-6600 | the records of a reply from hop j are those of hops last..j, in wire order |
| PrefillSafety.ProgressRises | ds4_distributed.c:3279-3299 | reported progress rises strictly over the chunk boundaries and ends at the span end |
| PrefillProgress.StepKeepsFlow | ds4_distributed.c:7456-7519 | without failures every queue holds the consecutive chunks between two counters and every worker is on the prefix of its next frame, so no hash check fails |
| PrefillProgress.NoDeadlock | ds4_distributed.c:3643-3720 | with window, slots, prefetch and forward depth at least 1 every unfinished failure-free state has an enabled action |
| PrefillProgress.StepWorks | ds4_distributed.c:3320-3341 | every action of a failure-free run strictly increases the work done |
| PrefillProgress.WorkIsBounded | ds4_distributed.c:3320-3341 | the work done never exceeds a bound computed from the number of chunks and hops |
| PrefillProgress.BenignRunsEnd | ds4_distributed.c:3643-3778 | so every failure-free interleaving is finite |
| PrefillProgress.CompleteIsCorrect | ds4_distributed.c:3720-3778 | at the end every worker's timeline is exactly the prompt up to the span end with a trusted hash, progress was reported up to it, and the last chunk's result was logits on a route with an output head and the hidden state on one without |
| PrefillProgress.StuckRunsAreComplete | ds4_distributed.c:3643-3778 | a failure-free run that can go no further has finished correctly |
| RouteSearch.SearchWorkers | ds4_distributed.c:1954-1989 | finds a route if and only if some chain of acceptable workers covers next..last; what it leaves on the path is the first such chain; the path array is long enough, entries below are untouched, the length is restored on failure, and then the furthest layer any acceptable workers reach is reported |
| RouteSearch.TryWorker | ds4_distributed.c:1967-1985 | one candidate: its chain is found if there is one, otherwise the furthest layer behind it |
| RouteSearch.OrderIs | ds4_distributed.c:1933-1942 | the comparator is a total preorder with values -1, 0 and 1: earlier start, then output heads, then the longer slice |
| RouteSearch.SortedExists | ds4_distributed.c:2224-2224 | any registry can be put in route order, so the order the search relies on excludes none |
| RouteSearch.BeforeIsRouteOrder | ds4_distributed.c:1933-1942 | index order on the sorted registry is route order: where two chains first differ the earlier one holds the worker the comparator puts first |
| RouteSearch.ChainIsContiguous | ds4_distributed.c:1944-1989 | a found chain is contiguous, ends at the last layer, and only its last worker can carry the output head |
| RouteSearch.ChainIsRoute | ds4_distributed.c:1944-1989 | a list of workers is a chain if and only if the first starts at the given layer, each next one where the last ended, every worker but the last hands its hidden state on before the last layer, and the last ends at the last layer with the output head, or with a hidden state for a coordinator that can run the head |
| RouteSearch.FirstChainPrefers | ds4_distributed.c:1933-1942 | at every place of the first chain no other worker from which a route leads on has an output head when the chosen one has none, or a longer slice when they are alike in that |
| RouteSearch.LeadsMeans | ds4_distributed.c:1967-1989 | a furthest layer is reached over contiguous workers that all hand their hidden state on |
| LayerRoute.KvRouteValidate | ds4_distributed.c:4891-4918 | accepts if and only if the slices start at layer 0, follow each other without gaps and end at the last layer |
| RouteBlob.WireIsLawful | ds4_distributed.c:1583-1609 | the network-order record format reads back exactly what is written, and accepts nothing else |
| Layouts.EntryLayout | ds4_distributed.c:1583-1598 | an entry is five big-endian words (host length, port, first layer, last layer, flags) and the host |
| Layouts.ReturnLayout | ds4_distributed.c:1600-1609 | a return record is three big-endian words (kind, host length, port) and the host |
| Layouts.BlobLayout | ds4_distributed.c:2135-2171 | entry i of a route blob stands with these words right behind the entries before it |
| Layouts.BlobEnd | ds4_distributed.c:2173-2199 | a route blob ends in the words 1, 0, 0: back upstream, no host, no port |
| RouteBlob.RouteMeans | ds4_distributed.c:6131-6229 | a route is well formed if and only if hosts have 1 to 1024 bytes and no NUL, ports are 1 to 65535, layer ranges are in order within the model and join, and logits are asked for at the last layer only; then only the last entry can ask for them |
| RouteBlob.EntriesUnique | ds4_distributed.c:6081-6108 | the same bytes can be read as route entries in one way only |
| RouteBlob.ValidateBlob | ds4_distributed.c:6131-6229 | accepts exactly the encodings of well-formed contiguous routes with the announced number of entries and an upstream return record |
| RouteBlob.GetEntry | ds4_distributed.c:6011-6062 | succeeds exactly when the blob starts with that many readable entries, and returns that entry |
| RouteBlob.GetReturnTarget | ds4_distributed.c:6064-6129 | succeeds exactly on a whole blob with a readable return record, and returns it |
| RoutePlan.AppendBlob | ds4_distributed.c:2135-2171 | appends one record, or names the reason: host length or 32-bit size |
| RoutePlan.AppendReturnUpstream | ds4_distributed.c:2173-2199 | appends the upstream record if the size still fits |
| RoutePlan.Emit | ds4_distributed.c:2266-2309 | serialises the entries that name the chain's workers, one by one, if and only if all hosts are usable and the whole blob fits 32 bits |
| RoutePlan.PlanHops | ds4_distributed.c:2246-2312 | with no chain it names the furthest reachable layer, otherwise it serialises the first chain in route order |
| RoutePlan.BuildRoutePlan | ds4_distributed.c:2201-2313 | the whole planner with its early exits: wrong local start, nothing to route, missing layer, first route |
| RoutePlan.PlanNamesWorkers | ds4_distributed.c:2266-2312 | entry k of a plan has the host, port and layer range of the k-th worker of the first chain, and carries the logits flag if and only if that worker has the output head |
| RoutePlan.RouteOfChain | ds4_distributed.c:4214-4250 | a chain of HELLO-checked workers gives entries that satisfy every rule the workers check; only the last can ask for logits, and if it does not the coordinator can run the head |
| RoutePlan.PlanIsAccepted | ds4_distributed.c:2201-2313 | every plan with hops that the planner makes is valid for the blob validator, entry i reads back as plan entry i, the return target is upstream, the hops follow the local slice to the last layer and pass the snapshot route check, only the last hop can carry the logits flag, and if it does not the coordinator can run the head |
| RoutePlan.BuildWirePlan | ds4_distributed.c:2201-2313 | the planner with the wire format in use: the same early exits and outcome, and every plan it makes is accepted |
| KvSizes.StateBytes | ds4_distributed.c:4597-4609 | checked multiplication factor by factor overflows exactly when the whole product does |
| KvSizes.LayerTensorBytes | ds4_distributed.c:4611-4664 | gives the true byte count of a layer's tensors, and fails exactly when it does not fit 64 bits (or the GLM engine declines) |
| KvSizes.SizeIs | ds4_distributed.c:4597-4664 | in closed form a layer has 4 * headDim * rawLive bytes without compression, 4 * headDim * (rawLive + nComp + 2 * ratio) with it, and at ratio 4 4 * headDim * (rawLive + nComp + 32) + 4 * indexerHeadDim * (nIndex + 32) |
| KvPayload.RawLiveMeans | ds4_distributed.c:4681-4690 | live rows are legal if and only if window and cap are not 0, they are at most cap, window and token count, and unless the model is a GLM equal to window or token count |
| Layouts.PayloadLayout | ds4_distributed.c:4806-4830 | a session payload is the letters DSV4, version 2, the layout, vocabulary and live rows in little-endian words at their offsets, then tokens, logits, both row counts of all layers, and the tensors |
| Layouts.ShardLayout | ds4_distributed.c:4832-4866 | a layer payload is the letters DSVL, version 1, the layout, first layer, last layer and live rows at their offsets, then both row counts of its layers, and their tensors |
| Layouts.TensorLayout | ds4_distributed.c:5022-5040 | a layer's tensors stand right behind those of the layers before it |
| KvPayload.ReadWords | ds4_distributed.c:601-609 | reads n little-endian words if and only if they are there, with the rest left over |
| KvPayload.TensorsUnique | ds4_distributed.c:4780-4797 | layers with the same row counts lie in the bytes in one way only |
| KvPayload.CutExists | ds4_distributed.c:4780-4797 | bytes of the summed size can be cut into layers with those row counts |
| KvPayload.CutFits | ds4_distributed.c:4780-4797 | layers of the engine's sizes take exactly the summed size |
| KvShard.TensorsFit | ds4_distributed.c:4780-4797 | the summed-size check passes if and only if every size is known and the sum is the remaining byte count, overflow included |
| KvShard.ParseShard | ds4_distributed.c:4692-4804 | accepts exactly the payloads of the expected layers in a legal layout equal to the one already known, and takes them apart |
| KvShard.ShardMeans | ds4_distributed.c:4692-4804 | what a legal shard is, field by field: range, model, live rows, known layout, and every layer's row counts and tensor size |
| KvSnapshot.ReadFront | ds4_distributed.c:5239-5333 | reads header, tokens, logits and row counts if and only if they are what this session can load |
| KvSnapshot.LoadableMeans | ds4_distributed.c:5239-5333 | what a loadable payload is, field by field: model, vocabulary, context, tokens, live rows, and every layer's row counts and tensor size |
| KvSnapshot.PrepareShard | ds4_distributed.c:4998-5042 | writes a slice's header and row counts and moves exactly its layers' tensors over, or fails when they are not all there |
| KvSnapshot.Distribute | ds4_distributed.c:5335-5374 | shards go out in route order; nothing is sent after a refused one, and sending ends early only at a refusal or when the next slice's tensors are not all there |
| KvSnapshot.DeliveredPayload | ds4_distributed.c:5335-5374 | of a complete payload the shards delivered are its own, all of them unless one is refused |
| KvSnapshot.LoadPayload | ds4_distributed.c:5225-5391 | loads exactly the encodings of payloads that fit the session: every slice gets its own layers, tokens and logits are restored, and trailing bytes fail the load although the shards are already out; of a file cut short in its tensors the shards before the gap are delivered, and without a readable front none |
| KvSave.SavePayload | ds4_distributed.c:5092-5223 | succeeds exactly when the shards are those of one payload with the session's tokens and logits, and writes that payload |
| KvSave.GatherShards | ds4_distributed.c:5141-5185 | collects layout, row counts and tensors of all shards if and only if they belong together |
| KvTopology.ShardUnique | ds4_distributed.c:4692-4804 | a shard can be parsed in one way only |
| KvTopology.LayerIsRouteIndependent | ds4_distributed.c:12-13 | whatever the slice around it, a layer is delivered with the same row counts and tensor bytes |
| KvTopology.ShardsDeterminePayload | ds4_distributed.c:5141-5213 | the shards of any covering route determine the layout and all layers |
| KvTopology.TopologyNeutral | ds4_distributed.c:12-13 | a payload loaded along one route and gathered along any other is the identical file |
| KvTopology.PayloadUnique | ds4_distributed.c:5239-5391 | a file is the encoding of one payload only |
| KvTopology.NothingRemains | ds4_distributed.c:5375-5378 | nothing remains after a load exactly when the file length is header + tokens + logits + row counts + the sum of the layer tensor sizes |
| Relay.CheckResult | ds4_distributed.c:2373-2398 | the coordinator's checks accept exactly the well-formed RESULT frames for the awaited request |
| Relay.Rewrite | ds4_distributed.c:6557-6612 | the frame sent on is the received one with one telemetry record more |
| Relay.RelayResult | ds4_distributed.c:6437-6617 | every frame from downstream answers the oldest pending request: forwarded exactly when it is a well-formed RESULT for it with room for one more record, otherwise with an error under that request's id for the first reason that holds (no RESULT, sizes that disagree, another request, no room), which closes the queue |
| Relay.RelayMain | ds4_distributed.c:6437-6632 | round k answers the k-th pending request, the relay goes on exactly as long as it forwards, and when it stops, at a failure or the end of the connection, the queue is closed and the unanswered requests are left in order |
| Relay.RelayedResult | ds4_distributed.c:6502-6617 | after m hops a RESULT carries m records more; request, hash, status and payload are unchanged and the size checks still accept it |
| Relay.RoomDecides | ds4_distributed.c:6540-6560 | along a chain the next relay forwards it if and only if the frame with one more record fits 32 bits |
| Relay.FrameUnique | ds4_distributed.c:1611-1635 | a frame is the encoding of one RESULT only |
| Layouts.FrameLayout | ds4_distributed.c:1611-1635 | a RESULT frame is its ten header words in network order, 40 bytes a telemetry record, and the payload |
| Layouts.RecordLayout | ds4_distributed.c:1725-1750 | telemetry record i stands at byte 40 + 40 * i as ten words in network order |
| Half.RoundsToNearestEven | ds4_distributed.c:818-848 | every finite f32 becomes the nearest f16, ties to even, including subnormal results, carry into the exponent and overflow to infinity; the sign is kept |
| Half.SpecialsKept | ds4_distributed.c:836-841 | infinities stay infinities and NaNs become quiet NaNs |
| Half.Normalise | ds4_distributed.c:859-866 | the shift loop brings a subnormal mantissa to the implicit bit without changing its value |
| Half.F16ToF32 | ds4_distributed.c:850-877 | the decoder is exact for every finite code, keeps infinities and NaN payloads |
| Half.RoundTrip | ds4_distributed.c:818-877 | decoding and encoding again is the identity on every code that is not a NaN |
| Fp8.Monotone | ds4_distributed.c:879-910 | larger magnitudes never get smaller codes, and no code exceeds 0x77 |
| Fp8.Saturates | ds4_distributed.c:879-923 | decoded magnitudes never exceed 240, and infinities, NaNs and everything from 240 on become 240 |
| Fp8.ErrorBound | ds4_distributed.c:879-923 | up to 240 the error is at most max(abs(x)/16, 2^-9) |
| Fp8.RoundTrip | ds4_distributed.c:879-923 | every byte whose exponent field is below 15 is what its own value encodes to |
| Fp8.FloorExp | ds4_distributed.c:893-903 | the exponent found is the one with 2^e <= a < 2^(e+1) |
| Activations.WriteNarrow | ds4_distributed.c:941-964 | the chunked writer puts out the elementwise map for payloads of any length |
| Activations.Decode16 | ds4_distributed.c:966-1021 | the decoder widens element by element, and fails exactly on odd sizes and results over 32 bits |
| Activations.Decode8 | ds4_distributed.c:966-1021 | the same for one-byte values |
| Activations.Arrives16 | ds4_distributed.c:925-1021 | what arrives is the f16 nearest to what was sent, and sending it on once more changes nothing |
| Activations.Arrives8 | ds4_distributed.c:925-1021 | what arrives is within max(abs(x)/16, 2^-9) of what was sent, with its sign |
| TopLogprobs.TopScores | ds4_distributed.c:2911-2946 | the n scores kept by insertion are the first min(k, number of finite logits) of the full stable descending ranking; other slots hold the initial filler, and k <= 0 touches nothing |
| TopLogprobs.RankedIsTheOrder | ds4_distributed.c:2911-2946 | the reference ranking lists exactly the finite logits, larger first, ties by lower id |
| TopLogprobs.RankedMeans | ds4_distributed.c:2911-2946 | spelled out: every finite logit is listed once with its id, and of two entries the first is larger, or equal with the lower id |
| TopLogprobs.TakeInsert | ds4_distributed.c:2932-2944 | what falls off the end of the first k does not matter for the next insertion |
| LayerPack.ComputeLayerPlacement | ds4_layer_pack.c:14-45 | the error codes in order, and otherwise the greedy placement written into the first n slots only |
| LayerPack.Pack | ds4_layer_pack.c:23-43 | the in-place loop over budgets and devices is the greedy placement, and slots behind the entries are untouched |
| LayerPack.Advance | ds4_layer_pack.c:32-34 | advances to the first device with room, an exact fit stays |
| LayerPack.PlaceEntry | ds4_layer_pack.c:32-42 | one entry takes its bytes off the first device with room, or goes to the CPU; all other budgets and slots stay |
| LayerPack.Account | ds4_layer_pack.c:35-38 | after any number of entries a GPU's room plus what was put on it is its budget, and a device not reached is untouched |
| LayerPack.GreedyIsFeasible | ds4_layer_pack.c:14-45 | greedy never goes back to an earlier device, keeps every GPU within budget and puts only a suffix on the CPU |
| LayerPack.StaysAhead | ds4_layer_pack.c:27-43 | the exchange step: where any other feasible placement finds room, greedy finds it no later |
| LayerPack.GreedyIsOptimal | ds4_layer_pack.c:14-45 | if any feasible placement keeps the first k entries on GPUs, greedy does too |
| ThinkSplitter.ScanIsReading | ds4_eval.c:2273-2299 | scanning loses nothing, shows no tag as text, and what waits is shorter than the 16-byte buffer |
| ThinkSplitter.ReadingUnique | ds4_eval.c:2273-2299 | a text has only one such reading |
| ThinkSplitter.ScanSplit | ds4_eval.c:2258-2300 | scanning in two goes with the pending rest in front is scanning in one |
| ThinkSplitter.ChunkingInvariance | ds4_eval.c:2258-2300 | however a text is cut, feeding the pieces and finishing does what the one reading of the whole text does |
| ThinkSplitter.CutsDoNotMatter | ds4_cli.c:421-473 | any two ways of cutting a text end in the same state with nothing pending |
| ThinkSplitter.FinishedIsReading | ds4_eval.c:2258-2300 | the finished state is what the events of the text's one reading make of the first one, with nothing pending |
| EvalStream.Stream.AppendTokenText | ds4_eval.c:2258-2300 | the loop over the buffer updates stream, styles, in_think and the pending tag as specified, and the pending tag never overflows its buffer |
| EvalStream.OneStylePerByte | ds4_eval.c:2253-2256 | every visible byte has exactly one style |
| EvalStream.ShownOutput | ds4_eval.c:2258-2300 | however the text is cut, the finished stream is the visible characters of its one reading in order with a newline for each closing tag, a character has style 1 exactly if the last tag before it opens or there is none and the stream started thinking, such a newline has style 0, and in_think follows the last tag |
| EvalStream.EventsAreShown | ds4_eval.c:2273-2299 | the same for any events, one after the other |
| EvalStream.ShownAlike | ds4_eval.c:2258-2300 | two ways of cutting a text end in the same bytes, styles and thinking state |
| TokenPrinter.Printer.Process | ds4_cli.c:421-465 | the printer's loop updates output, colour, newline and thinking state as specified, and the pending buffer never overflows |
| TokenPrinter.Printer.WriteText | ds4_cli.c:485-492 | formatted or raw output of one piece |
| TokenPrinter.Printer.Finish | ds4_cli.c:467-473 | what waited is written out and the colour is switched off |
| TokenPrinter.PrintedOutput | ds4_cli.c:421-473 | however the text is cut the finished output is the same, with colours, thinking and newline state |
| TokenPrinter.EventsArePrinted | ds4_cli.c:393-419 | what any events print: the characters in order, with a newline for exactly those closing tags where the last character written is not one; with colour a character is grey exactly if it is read while thinking, without colour no colour sequence is written; the newline state is whether the last character written is one |
| TokenPrinter.FinishedLooks | ds4_cli.c:421-473 | however the text is cut, the finished output looks like that for its one reading, and grey is off |
| TokenPrinter.RawCutsDoNotMatter | ds4_cli.c:485-492 | unformatted output is the text itself, however it is cut, and the newline state is whether its last character is one |
| TokenPrinter.GreyOnlyWhileThinking | ds4_cli.c:401-419 | grey is on only while the model is thinking, and off at the end |
| TraceText.FindText | ds4_eval.c:3433-3442 | finds the first occurrence that fits, or none |
| TraceText.NumberReadBack | ds4_eval.c:3473-3476 | a written byte count is read back exactly |
| TraceText.NumberMeans | ds4_eval.c:3473-3476 | what any spaces, sign and digits are read as: saturation beyond 64 bits, counting down from 2^64 after a minus, and nothing without a digit |
| TraceFraming.EndsLine | ds4_eval.c:2702-2713 | a newline is added behind a block exactly when its text does not end a line, so the end marker always starts one |
| TraceFraming.NextCase | ds4_eval.c:3492-3513 | the line loop that skips counted blocks finds what its specification finds |
| TraceFraming.BlockBegin | ds4_eval.c:3515-3536 | the same for the begin line of a block |
| TraceFraming.SkipMeans | ds4_eval.c:3453-3490 | a line is taken for the start of a counted block if and only if a name of 1 to 96 characters stands before its first begin mark, a number ends on the line, and as many characters and the name's end marker follow; the block ends behind that marker's line |
| TraceFraming.CountedOutputMeans | ds4_eval.c:3579-3593 | a counted output is copied if and only if its number ends on the line and as many characters and the end marker follow, and it is those characters |
| TraceFraming.ReadTrace | ds4_eval.c:3651-3658 | the regrading loop bounds each case by the next one and copies its output |
| TraceRoundTrip.BlockIsSkipped | ds4_eval.c:3453-3490 | a written block is skipped as a whole, whatever text it holds, with or without a final newline |
| TraceRoundTrip.OutputCopied | ds4_eval.c:3573-3608 | once the search reaches the output block the output is copied byte for byte |
| TraceRoundTrip.OldOutputCopied | ds4_eval.c:3594-3598 | in a trace without byte counts the output is everything up to the first line that starts with the end marker |
| TraceRoundTrip.OldOutputMissing | ds4_eval.c:3594-3598 | without such a line there is no output |
| TraceRoundTrip.CaseIsPassed | ds4_eval.c:3492-3513 | no line inside a case, block contents included, is taken for the start of the next one |
| TraceRoundTrip.TraceRoundTrip | ds4_eval.c:2702-2713 | scanning any sequence of written cases behind lines without marker text finds exactly those cases and every model output byte for byte |
| TraceRoundTrip.WrittenTraceIsRead | ds4_eval.c:2795-2877 | the same for the block names and markers in use |
| Utf8.EncodedIsUtf8 | ds4_cli.c:692-715 | the encodings of scalar values are UTF-8 by the grammar, and decode to themselves |
| Utf8.Decode | ds4_cli.c:692-715 | every string of the grammar is the encoding of the scalar values it decodes to |
| Utf8.Following | ds4_cli.c:697-712 | one round of the checker accepts exactly the multi-byte characters of the grammar |
| Utf8.JsonUtf8Valid | ds4_cli.c:692-715 | accepts exactly the strings of section 4 of RFC 3629 |
| JsonText.JsonWriteString | ds4_cli.c:717-742 | writes the specified literal, byte by byte |
| JsonText.TextReadBack | ds4_cli.c:717-742 | the literal of UTF-8 text unescapes to its code points |
| JsonText.BytesReadBack | ds4_cli.c:733-737 | the literal of other bytes unescapes to code points equal to the bytes |
| JsonText.LiteralIsString | ds4_cli.c:717-742 | the literal is always a JSON string of section 7 of RFC 8259; its text encodes back to the original bytes when they are UTF-8, and otherwise its code points are the bytes |
| JsonText.EscapeForms | ds4_cli.c:722-739 | a byte is escaped exactly if it is a quotation mark, a backslash, a control character, or not ASCII in text that is not UTF-8, and with two characters exactly where the writer has a short form |
| JsonText.LiteralIsPrintable | ds4_cli.c:717-742 | no literal holds a control character, and that of text that is not UTF-8 is pure ASCII |

## Left out

- Sockets, poll, timeouts, reconnects, fd handling, temp files and logging: channels, files and buffers are values.
- Liveness of recovery after a failed pipelined prefill: what a successful replay establishes is proved, not that one happens.
- Hash collisions: the pipeline results need no assumption about them, because request ids are contiguous; that equal hashes mean equal prefixes is not claimed.
- WorkerSession.Session.Process: does not model the refusals of a WORK frame for its payload sizes, model id, layer range, flags, route index or activation width, because they compare header fields and touch no session.
- WorkerSession.Session.Restore: does not model the snapshot header's model id and layer range or its chunk frames, for the same reason.
- The worker's session registry: one session is modelled; finding it in a list would only add an easy member.
- PrefillPipeline.Hop: the prefetch and pending queues are sequences here; their linked forms are `JobQueue.Queue` and `Forwarder.PendingQueue`.
- PrefillPipeline.Apply: payload sizes and hidden states are not carried, and request ids do not wrap at 64 bits.
- The registry sort: `RoutePlan.BuildRoutePlan` takes the registry in any order the comparator allows, as the C library sort may leave it.
- Memory-allocation failures, which every operation reports as an error without further effect.
- KvSnapshot.LoadPayload: the request/response frames around each shard are reduced to whether the receiver accepts it; restoring the logits into the session is the returned value.
- KvSizes.LayerSize: the GLM engine's own byte count is an uninterpreted function.
- Relay.RelayMain: does not model requests added while the relay runs (`PrefillPipeline` interleaves them), nor a connection that breaks in the middle of a frame; the shutdown of the upstream socket that follows is left out.
- Fp8.EncodeMagnitude: exact real arithmetic; the float rounding of the added one half is not modelled.
- Activations.WriteNarrow: the output is a sequence of code units; the host byte order of the 16-bit units and the 32-bit pass-through are not modelled.
- TopLogprobs.TopScores: the log-probability values themselves (exp and log sums) are not modelled.
- LayerPack: the printed layout summary.
- EvalStream and TokenPrinter: drawing, terminal control and the newline that ends a generation.
- TraceRoundTrip.TraceRoundTrip: header and metadata lines are single lines without marker text, as the writer's fields are meant to be; reading the fields back and grading are not modelled, and texts are NUL-free C strings.
- The logprob dump's own UTF-8 checker in the distributed runtime, which differs from the command line's on lead bytes F5 to F7.
- Answer extraction, terminal UI, option parsing, REPL, benchmarks: no specification to prove against.
