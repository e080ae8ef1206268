# XDMA scatter-gather engine: a verified model

This project models the scatter-gather core of the XDMA driver (`xdma/libxdma.c`,
`xdma/cdev_sgdma.c`), its JTAG-over-PCIe ioctl (`xdma/cdev_xvc.c`), and two user-space protocols
that run on top of it: the three-slot video sender and the chunked file transfer to the A53.
Verify it with `dafny verify dfyconfig.toml`.

The main results, each over all inputs or all runs:

- **End to end.** A synchronous request is turned into runs of hardware descriptors in a ring, and
  executing the runs of its completed transfers is exactly one flat copy of the bytes that the
  return value counts, whatever services, errors, timeouts and offline/online events interleave;
  any other return value says what became of the last transfer (`Submission.XferSubmit`). Left in
  peace, a request completes (`Verdicts.UndisturbedRequest`).
- **Prefetch refines the walk.** An engine that fetches blocks of adjacent descriptors visits
  exactly the slots of the next-pointer walk, once each and in order, and never crosses an aligned
  block of 64 (`Runs.PrefetchRefinesWalk`).
- **Queue safety.** Over every interleaving of the critical sections: a running engine has work, a
  parked engine stays parked, a transfer is listed exactly while SUBMITTED and leaves exactly once,
  and service accounts for every descriptor (`EngineRuns`, `Sync`, `Queues.ServiceAccounting`).
- **Streaming, shifting, framing, chunking.** The aperture pass, the XVC loop, the frame ring and
  the file sender each refine a one-line reference: byte `o` at `base + o mod aperture`, one long
  shift, a FIFO of frames, the file itself.

## How the model is laid out

| file | models |
|---|---|
| `Words.dfy`, `Memory.dfy` | 32- and 64-bit wrap-around, bit masks; host and card memory as byte moves |
| `Request.dfy` | cutting a mapped scatter list into software descriptors |
| `Descriptor.dfy`, `Run.dfy` | hardware descriptors, control words, runs, walk, prefetch, execution |
| `Allocation.dfy` | how transfers take windows of the descriptor ring |
| `Service.dfy` | one service, from the bits of the status and the descriptors counted |
| `Engine.dfy` | class `XdmaEngine`: ring building and every critical section, in place |
| `Queue.dfy`, `EngineRuns.dfy`, `Sync.dfy` | the same critical sections as functions on values, and whole runs of them |
| `Turn.dfy` | one transfer's turn as a function of the engine and of what happens meanwhile; turn after turn; what the hardware does with the chains |
| `Submit.dfy` | the request loop |
| `Verdict.dfy` | the verdict on one transfer, offline and online, and undisturbed requests |
| `Errno.dfy` | error codes |
| `Sweep.dfy`, `Aperture.dfy`, `AperturePass.dfy` | one pass of the windowed variant: sweeping a list through the window, when a pass is right, and its loops in place |
| `ApertureRoute.dfy`, `ApertureLoop.dfy` | its passes one after another: when a request is served right, and the request loop in place |
| `ApertureFault.dfy` | requests of the windowed variant that go wrong |
| `UserBuffer.dfy` | page splitting and alignment |
| `Xvc.dfy`, `Frames.dfy`, `A53File.dfy` | the three smaller loops |

Every method of `XdmaEngine` under `engine->lock` is proved equal to a function on the value
`Queue`; the lemmas about runs are stated on those functions. Both request loops are proved equal
to `Turns.Play`, which takes one turn per batch of pieces: for the driver's own way with a
transfer (`Turns.Driver`) the engine state, the verdict and the chains handed to the hardware are
functions of the request, the engine and the events. What the hardware makes of memory is
`Turns.Carried`: it runs, in order, the chains whose transfers are COMPLETED, by following next
pointers in the ring as it stood when the transfer was queued.

## What the environment is taken to do

- DMA mapping gives every scatter entry one bus extent of its length; `UserBuffers.DmaMapped` adds
  that pages are mapped page-aligned.
- A transfer that the driver marks COMPLETED has had its descriptor chain executed by the hardware.
  `Turns.Carried` therefore runs completed chains only; a failed or aborted chain's partial effect
  is not described.
- Status words, completed counts, wake-ups, timeouts and device offline/online are arbitrary
  parameters. Register reads succeed. `desc_blen_max` is positive and does not change.
- Transfers are named by numbers, where the driver reuses the address of `tfer[0]`.
- The descriptor ring lies inside the 64-bit bus address space.

## Where the code differs from what one would expect

The model follows the code in each of these.

- With `eop_flush` on, `engine_service_resume` is skipped, and an engine can be left running
  without work: `EngineRuns.EopFlushLeavesRunning`, and exactly when, `EngineRuns.EopFlushRunning`.
- `transfer_abort` only removes the head of the list: `EngineRuns.AbortRemovesHeadOnly`.
- An aperture pass entered with `sg_idx > 0` starts at the first scatter entry again. What any
  pass does is `AperturePasses.BuildPass`; exactly when a pass is right, `Apertures.PassRightIff`,
  and a whole request, `ApertureRoutes.AllRightIff`. In a ring of any size, with a window of one
  page, a request that does not fit what is left of it can read a page twice and another never
  (`ApertureFaults.SecondPageNeverRead`), come to a pass without descriptors
  (`ApertureFaults.LongerEntryRunsAway`), or fill the ring with pages behind an entry
  (`ApertureFaults.LengthWraps`). Requests of one scatter entry, and requests whose descriptors
  fit the rest of the ring, never go wrong (`ApertureRoutes.AgreesWhen`).
- `transfer_queue` rejecting a transfer leaves its descriptors in `desc_used`:
  `Sync.ListDiscipline`, `Submission.XferSubmit`.
- The adjacency mask keeps bits 12 to 15 of the control word, which overlap the adjacency field:
  `Descriptors.StaleAdjacencySurvives`, `Descriptors.SetAdjacentExact`.
- `send_file_to_a53_sync` never resets `loop_count`, so all chunks share one poll budget:
  `A53File.SendFile`. The comment above it that describes the header struct gives the data another
  size than the chunk length the code uses.

## Model

| member | source | states |
|---|---|---|
| `Submission.XferSubmit` | xdma/libxdma.c:3464-3688 | for every scatter list, start address, ring and behaviour of the rest of the system: the whole engine state left behind; the transfers named by the call are all COMPLETED but the last, whose state is the verdict's; a positive result is the bytes of the COMPLETED ones, the total exactly when all complete; without such bytes the result is -EIO iff the last transfer is FAILED, -ERESTARTSYS iff ABORTED, -EBUSY iff it was rejected, 0 iff there was nothing to send; desc_used and the ring slots are given back unless one was rejected; running the COMPLETED chains is one flat copy of that many leading bytes, or in non-incrementing mode one copy per software descriptor, each from or to the same card address; which requests are turned away, and that these change nothing |
| `Submission.RequestDelivers` | xdma/libxdma.c:3545-3687 | the bytes of the COMPLETED transfers are leading bytes of the request, all of them iff the verdict is Done; running their chains is a flat copy of these bytes in incrementing mode, and otherwise moves byte x of every software descriptor to or from start address + x |
| `Submission.RequestBytes` | xdma/libxdma.c:3545-3672 | running the COMPLETED chains moves exactly the first n software descriptors, in incrementing mode as one flat copy and otherwise each from the same card address on, and the byte count is their length |
| `Submission.RequestTransfers` | xdma/libxdma.c:3545-3672 | names, states and ring windows of the transfers of a request: the windows of Allocation, all of them if it completes; no slot changes outside them, and they are zero again unless a transfer was rejected |
| `Submission.RequestStarts` | xdma/libxdma.c:3545-3571 | a request takes a transfer iff it has a byte to move |
| `Submission.RequestIsRun` | xdma/libxdma.c:3545-3672 | a request that starts in a reachable state of the synchronous-caller machine ends in one |
| `Submission.BatchesTile` | xdma/libxdma.c:2976-3036 | cutting a request's pieces at the ring's end loses none and takes the windows of Allocation |
| `Submission.SubmitLoop` | xdma/libxdma.c:3545-3672 | the loop in place leaves the engine, verdict and byte count of playing the request's plan |
| `Submission.SubmitOne` | xdma/libxdma.c:3549-3671 | one round is one turn with the next pieces of the request |
| `Submission.Prepare` | xdma/libxdma.c:3554-3571 | after transfer_init the ring holds the run of the next pieces and the transfer has its name |
| `Submission.TakeTurn` | xdma/libxdma.c:3579-3661 | from transfer_queue on: the engine, chain and verdict of the reference turn |
| `Submission.RunTransfer` | xdma/libxdma.c:3579-3655 | queue and verdict are the function of the given events: rejection, wait, and switch on the state |
| `Submission.Await` | xdma/libxdma.c:3590-3655 | the verdict is that of the transfer's state after the given events; a transfer still pending is aborted |
| `Submission.PrefixBytes` | xdma/libxdma.c:3134-3151 | a prefix of the pieces holds a prefix of the request's bytes, all of them only if it is the whole |
| `Turns.TransactCloses` | xdma/libxdma.c:3579-3655 | whatever happens meanwhile, the transfer ends off the list in the state of its verdict, and no other transfer changes |
| `Turns.UndisturbedCompletes` | xdma/libxdma.c:1099-1202 | a service that reports all descriptors without error completes the transfer |
| `Turns.TurnMeaning` | xdma/libxdma.c:3549-3671 | what one transfer's turn leaves: a finished run in the ring, one transfer in the state of its verdict, desc_used back unless rejected |
| `Turns.TurnRing` | xdma/libxdma.c:2918-2932 | a turn changes no slot outside its window, and leaves its window zero unless the transfer was rejected |
| `Turns.AnswerTells` | xdma/libxdma.c:3600-3687 | the result of a request by its completed bytes and the state of its last transfer |
| `Turns.TurnIsRun` | xdma/libxdma.c:2463-2540 | a turn is a run of the synchronous-caller machine |
| `Turns.PlayCounts` | xdma/libxdma.c:3550-3672 | turn after turn: all complete iff Done, one transfer per turn taken, desc_used back iff none was rejected |
| `Turns.PlayLedger` | xdma/libxdma.c:3600-3655 | all transfers but the last are COMPLETED, the last is in the state of the verdict |
| `Turns.PlayRing` | xdma/libxdma.c:3655-3662 | turn after turn: the ring is as before outside the windows of the transfers, and these are given back |
| `Turns.PlayBytes` | xdma/libxdma.c:3550-3687 | the bytes of the COMPLETED transfers are the lengths of the completed turns |
| `Turns.PlayMemory` | xdma/libxdma.c:3550-3672 | running, in order, the chains whose transfers are COMPLETED moves exactly the pieces of those transfers |
| `Turns.HardwareRunsPieces` | xdma/libxdma.c:2277-2303 | an engine started at a run's first descriptor moves the bytes of the run's pieces |
| `Memory.FlatCopyToDevice` | xdma/libxdma.c:2394-2414 | what a flat copy to the card does, address by address, and that nothing else changes |
| `Memory.FlatCopyFromDevice` | xdma/libxdma.c:2394-2414 | the same towards distinct host bytes |
| `Requests.InitRequest` | xdma/libxdma.c:3108-3164 | every store is inside the allocation, the software descriptors are the reference pieces, and the final overflow test never fires |
| `Requests.SizeRequest` | xdma/libxdma.c:3117-3127 | the sizing pass computes entries plus the extra pieces of long entries |
| `Requests.CutEntry` | xdma/libxdma.c:3134-3151 | the inner loop appends exactly the pieces of one entry |
| `Requests.SizingBound` | xdma/libxdma.c:3117-3151 | the sizing pass allocates one software descriptor more than the fill pass needs for every entry that is empty or longer than desc_blen_max, and otherwise exactly as many |
| `Requests.AllPiecesTile` | xdma/libxdma.c:3134-3151 | pieces are non-empty, at most desc_blen_max, carry the scatter list's bytes in order and sum to its length |
| `Requests.PieceCount` | xdma/libxdma.c:3120-3121 | one entry yields its length divided by desc_blen_max, rounded up |
| `Requests.PiecesFull` | xdma/libxdma.c:3134-3151 | only the last piece of an entry is shorter than desc_blen_max |
| `Descriptors.ControlWordDecodes` | xdma/libxdma.c:2289-2369 | the word composed by transfer_init decodes to magic 0xAD4B, the adjacency, STOPPED/EOP/COMPLETED (0x13) on the last only, COMPLETED (0x02) on the others exactly with eop_flush |
| `Descriptors.SetControlDecodes` | xdma/libxdma.c:2354-2369 | a control field replaces the low byte only, and one outside it is refused |
| `Descriptors.SetAdjacentDecodes` | xdma/libxdma.c:2344-2352 | setting the adjacency of a word with a clear field keeps flags and sets field and magic |
| `Descriptors.StaleAdjacencySurvives` | xdma/libxdma.c:2344-2352 | without a clear field the old adjacency shows through: a concrete case |
| `Descriptors.SetAdjacentExact` | xdma/libxdma.c:2344-2352 | the adjacency is exact iff the old bits 12 and 13 are among the new ones |
| `Runs.RunDescFields` | xdma/libxdma.c:2277-2414 | the fields a finished descriptor decodes to: source, destination, length, link, adjacency, flags; with result writeback the source is the slot of its result |
| `Runs.RunIsChain` | xdma/libxdma.c:2277-2303 | a finished run is a chain: every slot links to the next with its adjacency, only the last stops |
| `Runs.WalkVisitsRun` | xdma/libxdma.c:2277-2303 | the next-pointer walk is exactly the run's slots, once each, in order |
| `Runs.PrefetchRefinesWalk` | xdma/libxdma.c:637-753 | every way of prefetching from the programmed start visits the walk's slots in order, no fetch crosses an aligned block of 64, and prefetching can proceed to the end |
| `Runs.PrefetchFrom` | xdma/libxdma.c:3038-3045 | block fetches from any slot of a chain visit exactly the rest of it |
| `Runs.PrefetchExists` | xdma/libxdma.c:3038-3045 | the fetches the adjacencies describe are a complete prefetch |
| `Runs.FetchInOneBlock` | xdma/libxdma.c:637-664 | a fetch of adjacency + 1 descriptors stays in its aligned block and one more would leave it or the run, for every 32-byte-aligned ring base |
| `Runs.ExecuteRun` | xdma/libxdma.c:2934-3049 | executing a run moves exactly the bytes of its pieces |
| `Runs.PlaceIsFlat` | xdma/libxdma.c:2949-2955 | in incrementing mode the pieces with their card addresses move what one flat copy moves |
| `Runs.PlaceIsFixed` | xdma/libxdma.c:2949-2955 | in non-incrementing mode they move each software descriptor from or to the same card address |
| `Runs.FixedMoveAt` | xdma/libxdma.c:2949-2955 | that is, byte x of every software descriptor meets start address + x |
| `Engines.XdmaEngine.TransferInit` | xdma/libxdma.c:2973-3049 | takes a non-empty window from the ring cursor, leaves a complete run there and nothing changed outside, advances ring, desc_used and request; on a streaming card-to-host engine the source of the descriptor in slot s is result slot s |
| `Engines.XdmaEngine.TransferBuild` | xdma/libxdma.c:2934-2970 | fills the window from the request's cursor; the card address advances by each length, or stays the same for every descriptor |
| `Engines.XdmaEngine.TransferDescInit` | xdma/libxdma.c:2277-2303 | chains the window and resets its control words |
| `Engines.XdmaEngine.SetControls` | xdma/libxdma.c:3018-3032 | stop flags on the last descriptor, completion flags on the others with eop_flush |
| `Engines.XdmaEngine.SetAdjacents` | xdma/libxdma.c:3038-3045 | every descriptor gets its successor's adjacency |
| `Engines.XdmaEngine.TransferDestroy` | xdma/libxdma.c:2918-2932 | zeroes the slots of the transfer's window and no other |
| `Engines.StagesMakeRun` | xdma/libxdma.c:2973-3049 | the four stages of transfer_init together make a finished run whatever the ring held before |
| `Engines.XdmaEngine.EngineStart` | xdma/libxdma.c:682-776 | starts exactly an idle engine with work; clears the shutdown field and desc_dequeued |
| `Engines.XdmaEngine.ServiceTransferList` | xdma/libxdma.c:828-885 | the in-place loop computes the recursive reference |
| `Engines.XdmaEngine.ServiceFinalTransfer` | xdma/libxdma.c:917-1025 | the new queue, in the error, half-way, eop_flush and complete cases; a head that is covered exactly is FAILED iff an error bit of the engine's direction is set |
| `Engines.XdmaEngine.ServiceResume` | xdma/libxdma.c:1055-1089 | restart, stop or acknowledge the shutdown request |
| `Engines.XdmaEngine.Service` | xdma/libxdma.c:1099-1202 | the whole new queue for every hardware sample, and the error return; a head that is covered exactly leaves the list FAILED or COMPLETED by the error bits |
| `Engines.XdmaEngine.TransferQueue` | xdma/libxdma.c:2463-2540 | result code and new queue, including both rejections |
| `Engines.XdmaEngine.TransferAbortAndStop` | xdma/libxdma.c:2419-2454 | takes the transfer off the head, aborts it if SUBMITTED, stops the engine |
| `Engines.XdmaEngine.DeviceOffline` | xdma/libxdma.c:4568-4600 | requests shutdown and stops the engine |
| `Services.HeadServed` | xdma/libxdma.c:937-947 | a service whose count covers exactly the head transfer leaves it FAILED iff one of bits 3-5, 19-23, or 9-15 (host to card) or 9-10 (card to host) of the status is set, and COMPLETED otherwise; which status and which count that is |
| `Services.FlushedHead` | xdma/libxdma.c:949-980 | with eop_flush a count inside the head transfer completes it and stops the engine iff its end of packet was seen |
| `Queues.StatusBits` | xdma/libxdma.h:117-174 | the error masks and the busy flag, bit by bit |
| `Verdicts.OneService` | xdma/libxdma.c:3579-3655 | the verdict on a transfer served once, for every count, status, direction and eop_flush |
| `Verdicts.BackOnline` | xdma/libxdma.c:4568-4645 | offline and online again before a transfer is queued is as an engine at rest |
| `Verdicts.UndisturbedRequest` | xdma/libxdma.c:3464-3688 | a request whose transfers are served and not otherwise disturbed completes, also after offline and online |
| `Queues.ServiceAccounting` | xdma/libxdma.c:849-1022 | both list passes, error-free: the longest prefix covered completes, the next fails iff the count is short of the total and off every boundary, the rest is untouched, removal is FIFO, descriptors are conserved |
| `EngineRuns.ServiceAccounts` | xdma/libxdma.c:1099-1202 | the same for a whole error-free service with a count at or above desc_dequeued: which transfers complete and fail, running iff work is left, and desc_dequeued plus queued descriptors conserved unless the engine is started again, which resets it |
| `Queues.ServiceErrorAccounting` | xdma/libxdma.c:937-947 | with an error bit of the direction set: everything strictly covered completes, the next fails and its descriptors are not counted as dequeued, the engine stops |
| `Queues.ServiceListMeaning` | xdma/libxdma.c:849-885 | the first loop retires exactly the transfers strictly below the count |
| `Queues.ServiceListConserves` | xdma/libxdma.c:849-885 | what leaves the count enters desc_dequeued |
| `Queues.ProcessStopsAt` | xdma/libxdma.c:917-1025 | the second pass closes the next transfer, FAILED or COMPLETED by the count |
| `EngineRuns.ServiceSettlesRunning` | xdma/libxdma.c:1055-1202 | after any service of a running engine with a nonzero count (eop_flush off), running holds iff work is left |
| `EngineRuns.RunningImpliesWork` | xdma/libxdma.c:694-1202 | in every reachable state of every interleaving (eop_flush off) a running engine has work |
| `EngineRuns.EopFlushLeavesRunning` | xdma/libxdma.c:1194-1198 | with eop_flush on that fails: a concrete service |
| `EngineRuns.EopFlushRunning` | xdma/libxdma.c:1130-1198 | exactly when: a service with eop_flush on leaves a running engine without work iff it is still busy and the count reaches past the queue, or to its end without an error |
| `EngineRuns.OfflineStaysParked` | xdma/libxdma.c:4554-4657 | from offline to the next online every interleaving keeps the engine stopped and the request set, and neither list nor set of SUBMITTED transfers grows |
| `EngineRuns.OnlineAccepts` | xdma/libxdma.c:2507-2531 | from online to the next offline every interleaving accepts every transfer with descriptors: last on the list, SUBMITTED, engine running |
| `Sync.NextKeeps` | xdma/libxdma.c:2463-2540 | every step of synchronous callers, service and offline/online keeps the invariant and moves each transfer only forward |
| `Sync.ListDiscipline` | xdma/libxdma.c:3550-3672 | in every reachable state listed iff SUBMITTED; off the list whenever tfer[0] is reused or the request freed; desc_used is back at zero iff nothing was rejected |
| `Sync.LeavesExactlyOnce` | xdma/libxdma.c:828-1022 | at every point of every run a transfer has left the list once if finished and never otherwise |
| `Sync.DepartureFinishes` | xdma/libxdma.c:828-1022 | a step takes a transfer off the list iff it finishes it |
| `Sync.VerdictIsFinal` | xdma/libxdma.c:3600-3655 | a finished transfer keeps its verdict for the rest of the run |
| `Allocation.WindowsInRing` | xdma/libxdma.c:2976-3007 | every window is non-empty, inside the ring and unwrapped |
| `Allocation.SlotOfDescriptor` | xdma/libxdma.c:2976-3036 | no gaps: descriptor o of a request sits in slot (desc_idx + o) mod desc_max |
| `Allocation.SlotsDisjoint` | xdma/libxdma.c:2976-3036 | descriptors fewer than desc_max apart occupy different slots |
| `Allocation.TransferCount` | xdma/libxdma.c:2976-3036 | how many transfers a request needs, exactly |
| `Allocation.TwoTransfersSuffice` | xdma/libxdma.h:479-480 | two transfers suffice iff the request has at most 2*desc_max - desc_idx descriptors |
| `ApertureRequests.XferAperture` | xdma/libxdma.c:3166-3462 | for any scatter list and ring: the whole engine state, the result by completed bytes or by the state of the last transfer, the states of the transfers, desc_used and the ring slots given back; whether it runs into a pass without descriptors; every descriptor has at most min(aperture, desc_blen_max) bytes, and less only where its entry or the window ends; if the completed passes are right and the window is a power of two, the result counts leading bytes and running the COMPLETED chains streams them; and if the entries agree at every pass meant, as with one scatter entry or a request that fits the rest of the ring, it never runs away, its completed passes are right, and the result is the total iff every transfer completed; which requests are turned away, and that these change nothing |
| `ApertureRequests.AimedDelivers` | xdma/libxdma.c:3242-3449 | if the completed passes are right, the COMPLETED transfers are the leading bytes of the request and running their chains streams byte o to base + o mod aperture |
| `ApertureRequests.AimedTransfers` | xdma/libxdma.c:3242-3449 | names and states of the transfers, one per pass; desc_used back iff none was rejected |
| `ApertureRequests.AimedComplete` | xdma/libxdma.c:3242-3449 | if the entries agree at every pass meant: no runaway, right passes, and the total is reached iff the verdict is Done |
| `ApertureRoutes.RightLegsIff` | xdma/libxdma.c:3274-3325 | the first n passes of a request are right iff at each of the first n passes meant the entries from the first on agree with those from sg_idx on; the condition is evaluated on the scatter list, window and ring alone |
| `ApertureRoutes.AllRightIff` | xdma/libxdma.c:3242-3336 | all passes of a request are right and reach the total iff the entries agree at every pass meant |
| `ApertureRoutes.OneEntryAgrees` | xdma/libxdma.c:3242-3333 | with one scatter entry they agree at every pass, in every ring |
| `ApertureRoutes.FittingAgrees` | xdma/libxdma.c:3263-3325 | so they do for a request whose descriptors fit the rest of the ring, and it is one pass |
| `ApertureRoutes.EmptyPassWrong` | xdma/libxdma.c:3274-3336 | a pass without descriptors before the total is never right |
| `ApertureRoutes.RightRouteStreams` | xdma/libxdma.c:3242-3333 | right passes, one after another, stream the request's bytes in order |
| `ApertureRoutes.RightRouteEnds` | xdma/libxdma.c:3242-3333 | right passes count exactly the bytes they take, and stop short of the total unless they are all there are |
| `ApertureFaults.SecondPageNeverRead` | xdma/libxdma.c:3232-3325 | two pages at different addresses, one slot left in a ring of any size: the request is two passes, both take the first page, the second is not right, and the offset reaches the total |
| `ApertureFaults.FirstPageTwice` | xdma/libxdma.c:3232-3333 | any two entries of which the first is a page and the second at least that, one slot left in a ring of any size: the request is exactly two passes over the first page |
| `ApertureFaults.LongerEntryRunsAway` | xdma/libxdma.c:3274-3336 | if the second entry is longer than a page, the passes end before the total: the next one has no descriptor |
| `ApertureFaults.LengthWraps` | xdma/libxdma.c:3280-3286 | a first entry below half a page, two slots left in a ring of at most 0xFFFFE descriptors: the request's second pass is entered with sg_offset behind the first entry's end, the 32-bit length wraps, and it fills the whole ring with pages from there on |
| `ApertureFaults.WrappedWrong` | xdma/libxdma.c:3280-3325 | each of these pages lies behind the entry; the pass is not right and counts more bytes than the request has |
| `ApertureRequests.PassLoop` | xdma/libxdma.c:3242-3449 | the loop in place leaves the engine, verdict and byte count of the reference, and stops at a pass without descriptors iff the passes end before the total |
| `ApertureRequests.PassOne` | xdma/libxdma.c:3242-3449 | one round is one turn with the pieces of the next pass |
| `Apertures.PassRightIff` | xdma/libxdma.c:3274-3325 | a pass entered anywhere is right iff the entries from the first on agree with those from sg_idx on, in address and length where the pass meant would use them up, in address and with more left than it takes where it would stop; and then the two passes are the same |
| `Apertures.FirstPassRight` | xdma/libxdma.c:3274-3325 | a pass entered with sg_idx = 0 is right |
| `Apertures.RightPassStreams` | xdma/libxdma.c:3263-3325 | a right pass streams the request's bytes from its offset on, in order without gap, byte o to base + o mod aperture |
| `Apertures.RightPassEnds` | xdma/libxdma.c:3286-3333 | a right pass leaves the cursors on the byte after its last, and covers what is left unless the ring ends |
| `Apertures.PassReads` | xdma/libxdma.c:3274-3284 | any pass that starts inside the first entry takes the request's bytes from sg_offset on |
| `Apertures.PassStreams` | xdma/libxdma.c:3274-3284 | it streams those bytes to the card addresses of the bytes due, which moves what was due iff the two are the same host bytes |
| `Apertures.PassInside` | xdma/libxdma.c:3287-3298 | every descriptor of every pass is non-empty, at most the allowed length and inside [base, base + aperture) |
| `Apertures.PassIs` | xdma/libxdma.c:3274-3325 | what any pass takes from the host, in 32-bit arithmetic, that its pieces are in phase with its offset, and that each is as long as its entry, the window and the limit allow |
| `Apertures.PassUnique` | xdma/libxdma.c:3274-3325 | a pass is the code's iff it is all of this: there is no other way to cut |
| `AperturePasses.BuildPass` | xdma/libxdma.c:3242-3360 | for any cursors: the loops leave the run of the reference pass in the ring, name the transfer and move the cursors |
| `AperturePasses.CutEntries` | xdma/libxdma.c:3274-3333 | the nested loops terminate and compute the reference sweep, starting at the first entry whatever sg_idx is |
| `AperturePasses.CutWindow` | xdma/libxdma.c:3286-3322 | the inner loop cuts one entry, in pieces as long as possible, until it or the ring is used up |
| `UserBuffers.MapUserBuffer` | xdma/cdev_sgdma.c:272-343 | succeeds iff there is a page and all are pinned and distinct from their neighbours; the entries then tile [buf, buf + len); the left-over test never fires |
| `UserBuffers.FillTable` | xdma/cdev_sgdma.c:325-337 | entries tile the buffer, each non-empty and inside one page, only the first with an offset |
| `UserBuffers.PagesNrValue` | xdma/cdev_sgdma.c:278-280 | the unsigned expression for pages_nr is the rounded-up count |
| `UserBuffers.CheckAlignMeaning` | xdma/cdev_sgdma.c:179-226 | in incremental mode the check accepts iff buffer and card address are congruent modulo the alignment; otherwise iff the buffer is aligned, so is the card address of a synchronous request, and the length is a multiple of the granularity |
| `UserBuffers.AlignmentCarries` | xdma/cdev_sgdma.c:326-337 | then source and destination of every descriptor of every transfer are congruent too |
| `Xvc.XvcIoctl` | xdma/cdev_xvc.c:131-225 | without timeout the chain sees one long shift of exactly the caller's bits, TDO comes back in place (TDI for opcode 2); the length register is min(32, bits left) at each shift |
| `Xvc.ShiftAll` | xdma/cdev_xvc.c:172-201 | the chunk loop refines one long shift |
| `Xvc.ShiftChunk` | xdma/cdev_xvc.c:177-200 | one chunk extends the shift by min(32, bits left) bits, all copies in bounds |
| `Xvc.XvcBar.ShiftBits` | xdma/cdev_xvc.c:58-91 | one register-level shift, or a timeout exactly when the busy bit outlasts the poll limit |
| `Xvc.ShiftConcat` | xdma/cdev_xvc.c:175-200 | shifting in two parts is shifting once |
| `Frames.FramesArriveInOrder` | tools/pcie_xdma_transfer/dma_to_device.c:389-454 | on every run the consumed frames are, byte by byte, a prefix of those signalled, and no write touches a pending slot |
| `Frames.ChannelSlotsDisjoint` | tools/pcie_xdma_transfer/dma_to_device.c:71-72 | no two slots of the eight channels share a byte iff frames have at most 0x2000000 bytes |
| `Frames.Sender.TestDma` | tools/pcie_xdma_transfer/dma_to_device.c:360-468 | one call is a run of the protocol; it still waits iff every poll read 3; a failed write leaves count and history for the retry; a sent frame holds the bytes written |
| `Frames.Sender.WaitReady` | tools/pcie_xdma_transfer/dma_to_device.c:470-508 | the wait ends iff some poll reads a value other than 3 |
| `A53File.SendFile` | tools/pcie_a53_rw/arm_pcie_protocol.c:252-432 | succeeds iff every chunk is accepted within the shared poll budget; what the A53 receives is then the messages of the whole file, otherwise of its first chunks |
| `A53File.FileArrives` | tools/pcie_a53_rw/arm_pcie_protocol.c:290-409 | received in order the messages assemble to the file, with matching offsets and checksums, and only the last asks for a sync |
| `A53File.HeaderComposed` | tools/pcie_a53_rw/arm_pcie_protocol.c:310-336 | after the overlapping stores, offset, 16-bit length, sync flag, checksum and data are all intact at the interrupt |
| `A53File.SendChunk` | tools/pcie_a53_rw/arm_pcie_protocol.c:310-336 | the interrupt at its end hands over exactly its message; keeps flag and total length |
| `A53File.Checksum` | tools/pcie_a53_rw/arm_pcie_protocol.c:315-320 | the running sum's low byte is the byte sum modulo 256 |
| `A53File.AwaitReply` | tools/pcie_a53_rw/arm_pcie_protocol.c:337-365 | the polls left over are carried to the next chunk |
| `A53File.SharedBudget` | tools/pcie_a53_rw/arm_pcie_protocol.c:337-365 | no two chunks of an accepted file can together take 100000 polls |
| `A53File.Window.RegWrite` | tools/pcie_a53_rw/main.c:94-104 | a little-endian 32-bit store at any byte address; one in the interrupt register hands the window over |
| `A53File.Window.RegWriteByte` | tools/pcie_a53_rw/main.c:106-116 | stores four bytes, three of them zero |
| `A53File.Window.MemcpyWrite` | tools/pcie_a53_rw/main.c:130-137 | stores exactly the given bytes |

## Left out

- XferSubmit: needs no 32-bit overflow in the total length or in the sizing division, as the driver's counters do; the partial effect of failed or aborted transfers and the result length of streaming card-to-host engines are not described.
- InitRequest: allocation failure is not modelled.
- XferAperture: what the code does in a pass without descriptors, where it stores beyond its ring, so the result of such a run is not described; allocation failure; the window ends inside the address space and the total length fits 32 bits.
- BuildPass: stops at a pass without descriptors, as XferAperture.
- MapUserBuffer: for lengths below 2^32 and without address overflow; allocation failure is not modelled.
- XvcIoctl: for at most 2^32 - 32 bits; failures of copying from and to user space are not modelled.
- WaitReady: the comparison of an uninitialised counter is left out and the wait ends when the register is not 3.
- SendFile: for files below 2^31 bytes; file errors, the words of the path name and the clearing of the interrupt register after a timeout are not modelled.
- RunningImpliesWork: for eop_flush off, since it fails with eop_flush on.
- The asynchronous path (cdev_aio_read/write, xdma_xfer_submit_nowait, xdma_xfer_completion): it does not hold desc_lock and has its own lifetime rules.
- Performance and cyclic transfers and statistics reads.
- Byte accounting with eop_flush: descCmpl is carried exactly as the code does, nothing is claimed about it.
- Failing register reads and the paths that give up because of them.
- Work distribution among the completion threads.
- Device probing, BAR mapping, interrupt set-up, character devices, ioctl dispatch, register dumps.
- Video decoding, link tests, firmware update, time synchronisation and the shell scripts.
