# Verified models of a single-producer ring family

The repository is a family of rings with one producer: lossy rings whose readers are overtaken rather
than waited for, gated rings whose producer waits for its slowest consumer, an "anchored" byte ring that
serves both kinds of reader from one buffer, and a wrapped-cursor queue for exactly one consumer. This
project models the engines those rings share and proves what they promise, over every interleaving of
their shared accesses.

Four engines are modelled as step machines. A step is one atomic access (a 4-byte lane, a word, a
counter, a control word), the order of steps inside one participant is the program's, and participants
interleave arbitrarily. The producer may die between any two steps and a successor may attach. A run is
any finite sequence of steps; every theorem about a run quantifies over all of them.

* **The lossy byte ring** (`BytesRing`, proved in `BytesProof`, `BytesReaders`, `BytesTheorems`,
  `BytesClose`, `BytesSessions`): intent, padding marker, header, each payload lane, `latest` and tail are
  separate stores; a reader's window checks, header load, lane loads and re-checks are separate loads. The
  framing arithmetic, with padding to the wrap and records that never straddle it, is in `Framing`.
* **The gate** (`Gate`, proved in `GateProof`, `GateTheorems`): a consumer table with epochs, claims in
  five steps, deferred cursor publishes, departures and retirements, against a producer that scans the
  table one control word and one cursor word at a time. `GatedRing` adds the buffer, `GateScan` an
  undisturbed scan, `Recovery` the table reset, `Epochs` runs that reset it any number of times, `Vacancy`
  how a slot comes to be claimed again.
* **The anchored byte ring** (`AnchoredBytes`, proved in `AnchoredProof`, `AnchoredTheorems`,
  `AnchoredWaiting`, `AnchoredPush`): the product of the two machines over one buffer and one tail word.
* **The lossy element ring** (`ElementRing`, proved in `ElementProof`, `ElementTheorems`, `ElementClose`,
  `ElementSessions`): a seqlock per slot with word-by-word payloads, tail batching, reposition slack, crashes
  and recoveries.

Two smaller machines cover claiming a place: `HeapClaim` the heap registry's two-step claim of one slot,
`AttachRace` an attach that races a reset of the shared table.

What the program does by looping and updating in place is also here in that form, proved against the
machines: the scan (`GateScan.GateProducer`), the table reset (`Recovery.GateTable`), the copy loops
(`LaneCopy`), the handles of the two lossy rings (`BytesHandles`, `ElementHandles`), an anchor with its
in-place decode and drain (`AnchorHandles`), a gating consumer's deferred releases (`Release`), the
drop-on-overwrite watermark (`Watermark`) and the single-consumer queue with cursors that wrap at the
machine word (`Spsc`). The reading handles run in the middle of everything: between any two of their
shared loads they call an `Others` method whose contract is all they know, anything the producer, its
death, its successors and the other readers may do; a lemma beside each puts every step of the machine
within that contract. Their `quiet` clauses say what is answered when nobody moves.

Assumptions: sequentially consistent interleaving of the atomic accesses in program order; positions of
the 64-bit rings are unbounded naturals (only `Spsc` wraps); one live producer at a time.

Some properties turned out to hold only conditionally. Each has a concrete failing run and the exact
condition:

* laps of the byte ring progress from capacity 16 on and not at 8; laps of the element ring progress with
  any slack and not without;
* a slot's generations rise except where a dead producer had begun a write at that sequence
  (`src/seqlock.rs:22-25` says they always rise);
* a drained element ring reports `Closed` if and only if there is slack, or nothing was left half-written
  past the tail, or the reader is inside that write's window;
* a byte ring's reader accounts for exactly the producer's total (`src/broadcast_bytes.rs:232-239`) if and
  only if none of its jumps landed on a record whose writer died before committing it: the run of
  `BytesClose.CountsMoreThanWasSent` counts 64 bytes of 56;
* beside a producer waiting at the gate an observer is never told it lagged if and only if it is within a
  capacity of the tail and of what a dead predecessor had declared (`src/anchored_bytes.rs:996-1004` says a
  stalled producer's intent is the tail): in the run of `AnchoredWaiting.FloorCanLap` it is told so;
* recovery resumes safely unless a retired slot's leftover cursor lies under a write a dead producer left
  unfinished; in the run of `Recovery.RetiredLeftoverIsUnsafe` the recoverer is given the wrong unit;
* the heap claim is durable if and only if the slot's bit is clear at the swap;
* an attacher let in after a reset keeps its lease if and only if no claim of the same slot swapped in
  before that reset is still on its way (the second look at the generation comes after the stores,
  `src/shm.rs:3394-3413` and `src/shm.rs:1813-1816`).

## Model

| member | source | states |
|---|---|---|
| `Framing.ThreeRecords` | src/broadcast_bytes.rs:192-215 | three largest records less one alignment unit fit the ring exactly from capacity 16 on |
| `Framing.SpanBelowCapacity` | src/anchored_bytes.rs:170-197 | the widest span one push can need is short of the capacity exactly from 16 on |
| `Framing.FrameShape` | src/broadcast_bytes.rs:587-615 | a record never straddles the end; padding runs exactly to it, is shorter than the record it makes room for and is followed by a record at offset zero |
| `Framing.LapBoundaryIsRecord` | src/broadcast_bytes.rs:971-975 | every capacity multiple below the tail is a record start, on every lap |
| `Framing.BoundaryGrows` | src/shm.rs:2888-2896 | a position parked on a dead producer's `latest` is a record start once the tail passes it |
| `Framing.OffIsRemainder` | src/broadcast_bytes.rs:589 | the lap-counting offset is the masked position |
| `Framing.LegalCapacityIs` | src/cursor.rs:80-88 | the legal capacities are exactly 8, 16, 32 and so on |
| `Framing.LengthsAre` | src/broadcast_bytes.rs:192-215 | a message is legal exactly up to an eighth of the capacity while shorter than the marker value; its record is the least multiple of 8 holding it and its header |
| `Framing.FramePlace` | src/broadcast_bytes.rs:587-599 | a record goes to the next position if it fits before the end of the buffer, and otherwise behind padding up to the end |
| `Framing.WidestSpanIsNeeded` | src/anchored_bytes.rs:170-197 | the widest span is attained by a legal frame, so no smaller bound would do |
| `Framing.PublishBatch` | src/cursor.rs:63-72 | the deferral bound: between 1 and the family's maximum, at most an eighth of the capacity unless it is 1, and maximal so |
| `LaneCopy.CopyInLanes` | src/atomic_copy.rs:206-227 | stores the payload's lanes, the last zero-padded, and nothing else |
| `LaneCopy.CopyOutLanes` | src/atomic_copy.rs:241-261 | fills exactly `len` bytes with the bytes of those lanes |
| `LaneCopy.UnpackPacked` | src/atomic_copy.rs:206-261 | copying out what was copied in gives the payload back, the rest of its last lane is zero |
| `LaneCopy.CopyWords` | src/atomic_copy.rs:47-115 | the word loop with its bytewise tail copies exactly the given bytes |
| `BytesProof.DeclareKeeps` | src/broadcast_bytes.rs:599-620 | declaring intent keeps the ring's invariant and what readers rely on |
| `BytesProof.ProduceKeeps` | src/broadcast_bytes.rs:621-647 | every single store of a push keeps every frame in the window whole |
| `BytesProof.AttachKeeps` | src/shm.rs:2897-2910 | reopening, healing `latest` and flooring the intent keep the invariant from any crash point |
| `BytesReaders.ParseOk` | src/broadcast_bytes.rs:976-990 | a genuine header passes both bounds checks, so a failed check proves a lap |
| `BytesReaders.ReadKeeps` | src/broadcast_bytes.rs:926-1017 | every load of a pop keeps what the reader knows about the frame under it |
| `BytesTheorems.AcceptedIsIntact` | src/broadcast_bytes.rs:926-1017 | in every interleaving, with crashes and recoveries, an accepted copy is byte for byte one committed message, taken at its own boundary |
| `BytesTheorems.DeliveriesInOrder` | src/broadcast_bytes.rs:1013-1051 | deliveries are an in-order, duplicate-free subsequence of the committed frames |
| `BytesTheorems.AccountingIsExact` | src/broadcast_bytes.rs:1028-1051 | join point plus bytes accepted, missed and skipped is the position, over any run |
| `BytesTheorems.ReadersAreSafe` | src/broadcast_bytes.rs:945-1012 | a reposition happens only after a real lap, every lane load is in bounds, a reader with data ahead stands on a frame boundary |
| `BytesTheorems.IntentNeverRegresses` | src/broadcast_bytes.rs:598-610 | the declared frontier never moves back, across sessions too |
| `BytesTheorems.EveryLapMakesProgress` | src/broadcast_bytes.rs:1028-1051 | every lap of every run reports a positive loss if and only if the capacity is at least 16 |
| `BytesTheorems.EmptyLapAtEight` | src/broadcast_bytes.rs:242-243 | a concrete run at capacity 8 reports an empty lap |
| `BytesTheorems.ClosedStaysDrained` | src/broadcast_bytes.rs:884-897 | within one session, a reader that was told `Closed` stays at the final tail, every byte since its join accounted for |
| `BytesClose.ClosedMeansDrained` | src/broadcast_bytes.rs:884-897 | in every run, recoveries included, `Closed` is told only in a pop that found the ring closed, with everything committed behind the reader and every byte it moved over in its total |
| `BytesClose.EveryShutWasTold` | src/broadcast_bytes.rs:780-792 | every `Closed` in a reader's history was told at such a step |
| `BytesClose.AtTheTailIff` | src/broadcast_bytes.rs:232-239 | the total is the producer's, and the reader at the final tail, if and only if none of its jumps landed on a record that was never committed |
| `BytesClose.CountsMoreThanWasSent` | src/broadcast_bytes.rs:1035-1047 | a concrete run with one crash and recovery in which a reader told `Closed` has counted 64 bytes of a 56-byte stream |
| `BytesClose.ClosedRingDrains` | src/broadcast_bytes.rs:884-897 | whatever happened before, at every legal capacity, a closed ring meets what draining it to `Closed` asks for |
| `BytesPops.PopAnswers` | src/broadcast_bytes.rs:780-792 | a pop run alone gives the framed message when in the window, the exact loss when not, empty or closed when there is nothing |
| `BytesPops.CachedPopLoadsNoTail` | src/broadcast_bytes.rs:780-792 | a pop with something below its cached tail, not overtaken, never looks at the shared tail |
| `BytesHandles.BytesProducer.Push` | src/broadcast_bytes.rs:578-647 | accepts exactly messages up to an eighth of the capacity and shorter than the marker value, else stores nothing; commits one frame at the old tail, its record the least multiple of 8 that holds it, padded to the end of the buffer exactly when it would not fit, `latest` on the record, the tail at its end, the intent at the tail or the inherited floor |
| `BytesHandles.LanesRun` | src/broadcast_bytes.rs:635-637 | the bulk payload copy is the machine's lane stores run to the end |
| `BytesHandles.BytesProducer.constructor` | src/shm.rs:2903-2910 | attaching resumes at the tail with the healed `latest` and the floored intent |
| `BytesHandles.StepIsKept` | src/broadcast_bytes.rs:578-647 | every step of a producer, its death or its successor is within what the consumer's handle relies on |
| `BytesHandles.BytesConsumer.TryPop` | src/broadcast_bytes.rs:780-1051 | with anybody moving between any two loads, window re-checks included: an item is the one committed message framed from the old position to the new, a loss is real and ends at `latest`, empty and closed miss nothing; with nobody moving, exactly the answer the counters call for |
| `BytesHandles.BytesConsumer.DrainToClosed` | src/broadcast_bytes.rs:884-1051 | after close, popping ends: nothing is missed in the window and everything before `latest` out of it, and the payloads of the frames from there to the last come back in order; asks only that a lap's jump reaches, which every closed ring does |
| `BytesHandles.BytesConsumer.SkipToLatest` | src/broadcast_bytes.rs:793-807 | moves to the tail, never back, and tells exactly how far |
| `BytesHandles.RoundTrip` | src/broadcast_bytes.rs:578-1051 | framing round trip at every legal capacity: any sequence of legal payloads pushed and drained comes back whole with no loss told if its frames fit the ring, and otherwise as exactly the newest payload, every byte before its record counted |
| `BytesSessions.JumpsToTheNewest` | src/broadcast_bytes.rs:1028-1051 | over every run, crashes and recoveries included: under a living producer a lapped reader's jump ends at the newest committed record, at the tail or where it was; between a push's last two stores, at the record about to be committed |
| `BytesSessions.JoinsAtTheTail` | src/broadcast_bytes.rs:438-455 | a new reader starts at the tail with nothing told |
| `BytesSessions.SkipLands` | src/broadcast_bytes.rs:793-807 | a skip leaves an idle reader at or past the tail and logs exactly how far it moved |
| `BytesSessions.SkippedThenClosed` | src/broadcast_bytes.rs:880-897 | on a ring that closes, a reader that skips and pops is told the bytes it skipped and `Closed`, and nothing else |
| `BytesSessions.RecoveryResumes` | src/shm.rs:2897-2910 | from any point of any producer's life, a death and an attach leave the stream alone: open, next at the tail, the floor at the larger of intent and tail, `latest` moved exactly if something was declared beyond the tail |
| `GateProof.SlotKeeps` | src/shm.rs:3370-3420 | every step of a subscription, read, flush, departure or retirement keeps the gate's invariant |
| `GateProof.ScanKeeps` | src/registry.rs:394-440 | every single load of a scan keeps it, whatever happened to slots already passed |
| `GateProof.RunKeeps` | src/registry.rs:284-321 | the invariant holds over every run, with any number of slots |
| `GateTheorems.NothingUnreadIsOverwritten` | src/anchored.rs:620-731 | no write, in progress or abandoned by a dead producer, touches a cell at or above a joined consumer's published cursor: what it has yet to read, and what it read and may still be borrowing |
| `GateTheorems.CachedMinimumIsALowerBound` | src/spmc.rs:748-775 | the cached minimum never exceeds a joined cursor, so the producer's length never under-counts |
| `GateTheorems.EmptyGrantIsBelowEveryJoin` | src/registry.rs:303-320 | a scan that finds nobody leaves a minimum strictly below every join point, present or future |
| `Epochs.EpochsIdentifyOccupancies` | src/shm.rs:3370-3394 | over runs with resets and recoveries at any point, no two occupancies of a slot share an epoch |
| `Epochs.RetireHitsTheDiagnosed` | src/shm.rs:3479-3501 | over the same runs, compare-and-retire acts only on the one occupancy that was given that epoch |
| `Epochs.StaleDiagnosisIsVoid` | src/shm.rs:3468-3501 | a diagnosis made before a reset retires nobody after it, however long after |
| `GateTheorems.RetiredStaysRetired` | src/shm.rs:3468-3478 | a retired slot is not re-issued by anything short of a reset |
| `GatedRing.EveryConsumerReadsEverything` | src/anchored.rs:1105-1112 | with no validation, each joined consumer has read exactly what was published from its join point on, in order |
| `GateScan.SelectiveRefinesFull` | src/registry.rs:394-440 | an undisturbed scan grants exactly when a full reload would; the one exception needs a request for the whole capacity, which no ring makes |
| `GateScan.FinishIsARun` | src/registry.rs:284-321 | the scan's verdict is a run of the machine's scan steps |
| `GateScan.DrainedRingFits` | src/registry.rs:303-320 | once everybody left has published everything, any request short of the capacity is granted |
| `GateScan.GateProducer.Rescan` | src/registry.rs:394-440 | the loop computes the machine's verdict and caches; its new minimum is the least of the counted slots' cursors and the next position, or one below it when no slot counts |
| `GateScan.GateProducer.HasSpace` | src/spmc.rs:603-608 | cached check first, one rescan on a miss |
| `GateScan.GateProducer.HasSpaceOrStarve` | src/anchored_bytes.rs:856-890 | the starving word carries the blocked push's own span exactly while even a rescan fails, and clears on a comfortable success |
| `Recovery.GateTable.Reset` | src/shm.rs:3515-3567 | in place: every slot is free under its next epoch, with no cursor and no lease, the generation is the next even one, and the resume point is at or below every plausible cursor, within a capacity of the tail, and the tail or one of them |
| `Vacancy.ResetIsClaimable` | src/shm.rs:3542-3563 | after a reset every slot, retired ones included, is free under its next epoch, and whatever happens elsewhere a claim of it succeeds |
| `Vacancy.RecoveredTable` | src/shm.rs:3598-3625 | a recovery takes slot 0 for the recoverer at a position at or below every plausible cursor and frees every other; the new producer starts at the tail with nothing cached |
| `Vacancy.ClaimsTheFree` | src/shm.rs:3370-3393 | a claim succeeds exactly on a free slot, under the next epoch, and changes nothing otherwise |
| `Vacancy.LeftIsClaimable` | src/shm.rs:3795-3819 | after a holder left, whatever the producer and other slots do between its two stores and after them, a claim of its slot succeeds |
| `Vacancy.RetiredMeanwhile` | src/shm.rs:3795-3812 | a holder retired while it leaves does not free its slot: it stays retired and no claim takes it |
| `Vacancy.JoinsAtTheTail` | src/shm.rs:3394-3413 | with everybody else moving between its steps, a claimant ends up joined at the tail as its last load saw it |
| `Vacancy.CatchesUp` | src/anchored_bytes.rs:1424-1475 | a holder that looks, reads all it sees and flushes is published at the tail |
| `Vacancy.AbandonedPublishesNothing` | src/anchored_bytes.rs:1109-1112 | an abandoned claim publishes nothing and begins no write |
| `Recovery.ResumePoint` | src/shm.rs:3503-3514 | the resume point is at or below every plausible cursor, within a capacity of the tail, and is one of them or the tail |
| `Recovery.ReachIsDanger` | src/shm.rs:3503-3514 | the written frontier passes the resume point plus a capacity if and only if some cell still to be read after recovery is the target of a begun write |
| `Recovery.RecoveryIsSafe` | src/shm.rs:4234-4256 | recovery re-establishes the gate's invariant if and only if no cell still to be read is the target of a begun write; epochs stay distinct either way |
| `Recovery.OnlyRetiredCursorsEndanger` | src/shm.rs:3528-3546 | that condition fails only through a retired slot's leftover cursor |
| `Recovery.RecoveredReadsEverything` | src/shm.rs:4240-4256 | after a safe recovery the recoverer reads exactly what was published from the resume point on |
| `Recovery.RetiredLeftoverIsUnsafe` | src/shm.rs:3528-3546 | a concrete run, buffer included, after which the recovered consumer's first unit is not the one published there |
| `AttachRace.NobodyIsFreedUnderneath` | src/shm.rs:1797-1829 | however attaches and resets interleave, an attacher let in with no reset begun since has its slot's control word to itself |
| `AttachRace.LeaseIsKeptIff` | src/shm.rs:3394-3413 | and keeps its lease word, whatever happens short of a new reset, if and only if no older claim of the same slot still has its stores to come |
| `AttachRace.LateClaimOverwrites` | src/shm.rs:3394-3413 | a concrete run in which such a claim exists and overwrites the lease |
| `AttachRace.ApartResetsKeepLeases` | src/shm.rs:3575-3625 | in any run that overlaps no claim with a reset, whoever was let in has control word and lease to itself |
| `AttachRace.LetInIff` | src/shm.rs:1813-1822 | over every interleaving, the second look lets an attacher in exactly while the generation is the one it validated, and then its slot is its own |
| `AttachRace.AttachGetsIn` | src/shm.rs:3394-3413 | with the producer publishing in the middle, a claim joins at the tail as its second load saw it, under a lease of its own |
| `AttachRace.ResetFreesAll` | src/shm.rs:3516-3567 | a whole reset run alone frees every slot under its next epoch, with no cursor and no lease, in a new even generation |
| `AttachRace.ResetIsClaimable` | src/shm.rs:3598-3625 | an attacher that then validates the region takes any slot it likes |
| `AnchoredProof.RunKeeps` | src/anchored_bytes.rs:75-95 | the composed invariant holds over every run |
| `AnchoredTheorems.AnchorsReceiveEverything` | src/anchored_bytes.rs:1259-1292 | each joined anchor has received exactly the messages pushed from its join point, in order, all of them once its cursor is at the tail |
| `AnchoredTheorems.DecodesNeverTear` | src/anchored_bytes.rs:213-228 | an anchor's unvalidated decode in progress is a prefix of the next message |
| `AnchoredTheorems.DecodeDelivers` | src/anchored_bytes.rs:1424-1437 | left to itself, a decode in progress hands over exactly the message owed, in exactly the loads left |
| `AnchoredTheorems.ForgottenStays` | src/anchored_bytes.rs:1527-1532 | a forgotten view is not consumed: nothing is published and only padding stays behind the cursor |
| `AnchoredTheorems.ForgottenComesAgain` | src/anchored_bytes.rs:123-126 | the next decode hands over the same message again |
| `AnchoredTheorems.ObserversAcceptExactly` | src/anchored_bytes.rs:1803-1888 | every observer-accepted message is exact and its accounting is exact, in the composed ring |
| `AnchoredTheorems.IntentRespectsAnchors` | src/anchored_bytes.rs:992-1030 | the declared intent stays within a capacity of every joined anchor's published cursor, so it reaches over nothing unread or borrowed |
| `AnchoredWaiting.WaitingNeverLaps` | src/anchored_bytes.rs:75-95 | over every continuation without a new push, producer deaths and recoveries included, an observer is never told `Lagged` if and only if it is within a capacity of the tail and of the recovered floor |
| `AnchoredWaiting.FloorCanLap` | src/anchored_bytes.rs:992-1011 | a concrete run in which an observer within a capacity of the tail can be told it lagged while nobody pushes |
| `AnchoredWaiting.SpanIsConstant` | src/anchored_bytes.rs:846-855 | a blocked push needs the same span on every check of its episode |
| `AnchoredTheorems.SixteenIsTheFloor` | src/anchored_bytes.rs:162-197 | every legal frame is short of the capacity at every position, exactly from capacity 16 on |
| `AnchoredTheorems.AnyMessageFits` | src/anchored_bytes.rs:926-962 | once every anchor is drained or gone, the scan grants any legal message |
| `AnchoredPush.AnyMessageIsPushed` | src/anchored_bytes.rs:714-752 | after any history, once every anchor has drained or gone, any legal message is pushed by the producer's own steps: check, scan, declaration and every store, to its frame at the tail |
| `AnchoredPush.HalvesMove` | src/anchored_bytes.rs:992-1030 | inside the composed ring the table and the observers keep every move of their own, and neither touches the other half |
| `ElementProof.GenerationIsUnique` | src/seqlock.rs:15-26 | for a committed position the expected generation is there exactly while no write has begun a lap ahead, and then so is the message |
| `ElementTheorems.AcceptedIsExact` | src/seqlock.rs:30-64 | with words stored and loaded one at a time, an accepted value is exactly the message of its sequence |
| `ElementTheorems.GenerationNeverReturns` | src/seqlock.rs:22-25 | once a committed position's slot moved on, its generation never comes back, across crashes included |
| `ElementTheorems.GenerationsIncrease` | src/broadcast.rs:630-646 | a push raises its slot's generation if and only if no dead producer had begun a write there |
| `ElementTheorems.GenerationsNeedNotRise` | src/seqlock.rs:22-25 | a concrete run with one crash after which a push leaves its slot's generation where it was |
| `ElementTheorems.SlackBeatsDebt` | src/broadcast.rs:546-618 | under any batching, every lap moves on by at least one and lands `slack` above the oldest position the tail allows, on a message still retained, even with a write in flight |
| `ElementTheorems.ProgressNeedsSlack` | src/broadcast.rs:346-352 | every lap of every run makes progress if and only if the slack is at least 1 |
| `ElementTheorems.DefaultSlackProgresses` | src/broadcast.rs:227-243 | the default slack is an eighth of the capacity and at least one, none at capacity 1; so every lap progresses exactly from capacity 2 on |
| `ElementTheorems.AccountingIsExact` | src/broadcast.rs:912-937 | join point plus messages accepted, missed and skipped is the position, never past the tail |
| `ElementTheorems.DeliveriesInOrder` | src/broadcast.rs:912-924 | deliveries ascend strictly |
| `ElementTheorems.ClosedStaysDrained` | src/broadcast.rs:516-565 | within one session, a reader that was told `Closed` stays at the final tail, batch debt included |
| `ElementClose.ClosedMeansDrained` | src/broadcast.rs:869-885 | in every run, recoveries included, `Closed` is told only in a pop that found the ring closed with its debt published, at the tail, with a total of exactly tail less join |
| `ElementClose.EveryShutWasTold` | src/broadcast.rs:772-784 | every `Closed` in a reader's history was told at such a step |
| `ElementClose.ClosedIsReachedIff` | src/broadcast.rs:869-937 | popping alone on a closed ring reaches `Closed` if and only if there is slack, or no write was left unfinished past the tail, or the reader is inside that write's window |
| `ElementClose.UnfinishedIsVisible` | src/broadcast.rs:630-646 | whether such a write was left shows in the generation of the tail's slot |
| `ElementTheorems.WithoutSlackCloseMayNeverCome` | src/broadcast.rs:346-352 | without slack, a concrete family of runs leaves a closed ring whose reader is stuck short of the tail |
| `ElementTheorems.StuckForever` | src/broadcast.rs:931-937 | from there every pop reports an empty lap and changes nothing |
| `ElementHandles.RingProducer.Push` | src/broadcast.rs:630-656 | one more message, word loop included; the tail follows exactly at the batch boundary |
| `ElementHandles.RingProducer.SetTailBatch` | src/broadcast.rs:603-618 | applies the largest batch not above the request, an eighth of the capacity or the slack, and at least 1; publishes at once exactly when the pending debt reaches it |
| `ElementHandles.RingProducer.Close` | src/broadcast.rs:516-541 | the debt is published before the flag |
| `ElementHandles.RingConsumer.ReadValid` | src/seqlock.rs:42-64 | with anybody moving between any two of its loads, accepts exactly while no write has begun a lap ahead, and then with the published message |
| `ElementHandles.RingConsumer.TryPop` | src/broadcast.rs:772-784 | with anybody moving between any two loads, an item is the published message at the old position, a loss is real and exact and puts the reader `slack` above the oldest position the tail it saw allows, or leaves it there, empty and closed miss nothing; with nobody moving, exactly the answer the state calls for |
| `ElementHandles.RingConsumer.DrainToClosed` | src/broadcast.rs:869-937 | after close, under exactly that condition, popping reaches `Closed`: every message up to the tail is delivered in order or counted, all delivered if none was overwritten, and to a lapped reader the newest `capacity - slack`, or all there are |
| `ElementHandles.RingConsumer.SkipToLatest` | src/broadcast.rs:791-799 | moves to the tail, never back, and tells exactly how far |
| `ElementSessions.JoinsAtTheTail` | src/broadcast.rs:408-420 | a new reader starts at the tail with nothing told |
| `ElementSessions.SkipLands` | src/broadcast.rs:791-799 | a skip leaves an idle reader at or past the tail and logs exactly how far it moved |
| `ElementSessions.SkippedThenClosed` | src/broadcast.rs:516-541 | a producer that flushes and closes publishes its whole debt; a reader that skips and pops is told the messages it skipped and `Closed` |
| `ElementSessions.RecoveryResumes` | src/broadcast.rs:966-995 | a death forfeits exactly what was not published; the next producer starts at the tail without batching |
| `Release.StarvationIsHeard` | src/anchored_bytes.rs:856-890 | whatever claims, releases, departures and retirements a scan runs among, if it refuses then somebody's cursor stood in the way while it ran, and that consumer, tail known, passes the lag filter |
| `Release.RefusalAtRest` | src/anchored_bytes.rs:856-890 | when nobody disturbs the refused scan, an active consumer still stands there |
| `Release.FilterIsExact` | src/spmc_bytes.rs:1211-1224 | the filter admits exactly the consumers lagging by the capacity less the span: every gate, and beyond them only one precisely on the threshold |
| `Release.NarrowSpanBelowCapacity` | src/spmc_bytes.rs:124-142 | a record is the least multiple of four that holds it; the gated byte ring's span stays one alignment unit short of the capacity, so the threshold never underflows |
| `Release.GatingConsumer.constructor` | src/cursor.rs:63-72 | joins at the tail with the deferral bound of its capacity and family |
| `Release.GatingConsumer.Advance` | src/anchored_bytes.rs:1462-1475 | publishes exactly when a starving push's span closes the gap, when caught up, or when what is held back reaches the family's bound or an eighth of the capacity; otherwise holds it back |
| `Release.GatingConsumer.ReleaseToStarving` | src/anchored_bytes.rs:1441-1475 | a gating consumer's next release reaches a starving producer |
| `Release.GatingConsumer.HasItem` | src/anchored_bytes.rs:1366-1374 | a consumer that finds the ring empty has published everything |
| `AnchorHandles.StepIsWithin` | src/anchored_bytes.rs:213-228 | every step of the anchored ring's machine that is not the anchor's own is within what its handle relies on |
| `AnchorHandles.BytesAnchor.Decode` | src/anchored_bytes.rs:213-228 | with plain loads and no validation, anybody moving between them, finds the next frame's record behind its padding |
| `AnchorHandles.BytesAnchor.View` | src/anchored_bytes.rs:1259-1292 | a lent payload reads as exactly the message, at any pace, until it is released |
| `AnchorHandles.BytesAnchor.TryPop` | src/anchored_bytes.rs:1231-1245 | gives the next message owed; finding nothing means everything read was published; `Closed` only at the tail |
| `AnchorHandles.BytesAnchor.Drain` | src/anchored_bytes.rs:1259-1292 | gives the messages of the next frames in order: all in the ring on entry, or up to the first that brings what is taken to 4096 bytes or an eighth of the capacity, and none beyond it; one publish after all of them |
| `AnchorHandles.BytesAnchor.ConsumeAll` | src/anchored_bytes.rs:1424-1475 | consuming everything gives every message owed and publishes everything |
| `Spsc.FullnessIsExact` | src/cursor.rs:92-95 | the wrapped fullness test is the true one if and only if the request fits the word beside what is queued; the element queue asks for one unit |
| `Spsc.MaskSurvivesWrap` | src/cursor.rs:716-724 | masking a wrapped cursor designates the slot the unbounded one does |
| `Spsc.PowersAreLegal` | src/cursor.rs:241-243 | every power of two below a larger one is a legal geometry for it |
| `Spsc.Queue.Occupancy` | src/spsc.rs:184-200 | the producer's length, computed on wrapped cursors, is never short and is exact once the consumer's progress is published |
| `Spsc.Queue.HasSpace` | src/cursor.rs:409-451 | granted exactly when the consumer's published progress leaves room, its cursor re-loaded exactly on a miss; the starving flag is raised on refusal, kept on a success by re-loading, cleared by a comfortable one |
| `Spsc.Queue.TryPush` | src/spsc.rs:135-181 | appends, or refuses exactly when full |
| `Spsc.Queue.TryPop` | src/spsc.rs:291-363 | gives the oldest value not yet taken, none exactly when there is none, and then holds nothing back; publishes under the same exact condition |
| `Spsc.Queue.AdvanceOne` | src/cursor.rs:641-651 | publishes exactly when the queue was seen full, when caught up, or when 64 elements or an eighth of the capacity are held back; otherwise publishes nothing |
| `Spsc.Queue.Teardown` | src/cursor.rs:139-156 | drops exactly what is still queued, oldest first |
| `Spsc.Lifetime` | src/spsc.rs:121-363 | over any history, past any number of wraps, what was accepted is what was delivered followed by what teardown dropped |
| `Watermark.DroppingRing.PrepareSlot` | src/spmc.rs:682-716 | the watermark passes the old value before its drop begins, so an unwinding drop is never repeated |
| `Watermark.DroppingRing.DropPassed` | src/spmc.rs:695-712 | a drop that may unwind begins only behind the watermark and leaves the ring sound however it ends |
| `Watermark.DroppingRing.Teardown` | src/spmc.rs:129-158 | drops the live window, oldest first; after a panicking drop the rest leaks and nothing is dropped twice |
| `Watermark.Lifetime` | src/spmc.rs:517-567 | over any history of pushes, refusals, claims, commits, abandoned claims and panicking drops, each published value is dropped exactly once and nothing else is |
| `HeapClaim.ClaimIsDurableIffBitClear` | src/registry.rs:148-182 | some continuation leaves the claimant registered with its bit clear, without its leaving, if and only if the bit was still set at the swap |
| `HeapClaim.ClaimsAndLeaves` | src/registry.rs:162-182 | whoever sees the bit clear takes the slot exactly if its word holds the sentinel, ends up registered with both set, and its departure clears both |
| `HeapClaim.AtomicClaimsAreSafe` | src/registry.rs:162-182 | with check and swap as one step, a registered consumer's bit is never lost |
| `HeapClaim.TwoStepClaimCanBeErased` | src/registry.rs:113-121 | as two steps, a concrete run in which a departing consumer's clear erases a newcomer's bit |

## Left out

- Weak memory and fence placement: sequential consistency is assumed, so fences only fix the order.
- Wrap-around of 64-bit positions and 32-bit epochs, and the guard that keeps a cursor off the sentinel: positions and epochs are unbounded, the sentinel is a separate value.
- Mapped memory, headers, role leases, tokens, process identifiers and fork guards: roles are assumed held as the handles' contracts require; slot leases appear in `Recovery.GateTable` and `AttachRace`.
- Handles that stay alive after being retired or having their role taken by force: outside the source's own contract.
- Recovery concurrent with an attach in progress: in `Recovery` and `Epochs` the reset is one step with no claim under way; `AttachRace` has every store of both, without the ring's data, departures and the recoverer's own claim.
- Waiting, parking and notification: a wait is a retry while not enabled, and the enabling conditions are what is proved.
- The heap registry's chunk list: the gate is modelled over the shared table; `HeapClaim` covers one heap slot.
- The anchored element ring and its observer: the same gate, the same seqlock and the same reader as the rings modelled here, not proved a second time.
- `src/spsc_bytes.rs` and `src/wait.rs` are not part of this model.
- Volatile-copy variants, padding and alignment of types, `Send`/`Sync`, pointer provenance: layout, not behaviour.
- The producers' handles run without other steps in between: nobody else writes what they read, and `BytesTheorems` and `ElementTheorems` have their every store interleaved with the readers'.
- LaneCopy.CopyOutLanes: copies from a buffer at rest; `BytesHandles.BytesConsumer.CopyOut` loads the same lanes with anybody moving between them.
- The anchored ring's panicking drain callback: the publish on unwind is the same single publish.
