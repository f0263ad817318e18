# FrameLink in Dafny

FrameLink moves GPU frames between processes by handing over ownership of a fixed pool of slots. This project
models the parts of it whose correctness is a statement about whole runs, and proves those statements:

- **The ring** (`Ring`, `RingInvariant`, `RingSteps`, `RingFences`, `RingTheorems`, `RingOutcomes`,
  `RingReclamation`, `RingRetirement`, `MixedRelease`, `TimelineLoss`): producer and consumer of one channel as one
  step machine over two FIFO sockets and monotone fences, with latest-wins delivery, submit transactions, local
  references, read leases whose ends may be left to fences, geometry requests and re-attachment. `RingTheorems` says
  what can never happen, `RingOutcomes` when each step succeeds and what it then does. `ProducerChannel` and
  `ConsumerChannel` are the imperative channel ends; each method is proved to do what the machine's transition
  functions say.
- **Bookkeeping classes** (`SyncFds`, `ReadLedger` over its abstract form in `Leases`, `BufferReferences`): fixed
  arrays, counters and circular queues that refine a sequence of frames and a map of tokens.
- **The relay** (`Relay`, `RelayOutcomes`, `RelayReclamation`, `NativeRelay`): two rings joined by a same-allocation
  relay, as a joint machine in which every channel operation is a separate move, and as the class that performs those
  moves.
- **Memory policy** (`Memory`, `MemoryCodec`): mask folds over endpoints, the 64-byte requirements message, the offer
  exchange and the allocation query.
- **Sessions** (`Session`, `SessionCodec`, `WireLayouts`, `Handshake`, `Coordinator`, `CoordinatorHistory`):
  negotiation, the 160-byte configuration, the 268-byte offer, the handshake, the session coordinator and what its
  answers mean along a sequence of calls. `WireLayouts` says which bytes of every message hold what.
- **Time and streams** (`SampleClock`, `AudioContinuity`, `VideoEvents`, `VideoOrder`, `VideoLiveness`,
  `VideoElements`, `WireBounder`): the sample clock, the continuity checks on both audio sides, the ordered merge of the
  event stream with the lossy frame mailbox and when it reaches its end, and the incremental parser that bounds audio
  packets.

Three conventions hold throughout. An image is an opaque allocation identity, so "same allocation" is equality. A
fence is a number that enters a set of signalled fences and never leaves it. A blocking call is one round of its loop;
the loop itself is a sequence of steps, and a timeout is a step that changes nothing. Frames carry the fields the
protocol decides on.

Theorems about runs quantify over arbitrary sequences of steps from an initial state (`Initial`, `JointInitial`,
`START`, `Created`) or from any state that satisfies the invariant. A disabled or refused step leaves the state as
it was, so no fairness or scheduling assumption is hidden in them.

## Where the code does less than one might expect

Each of these is a lemma with a concrete instance, next to a lemma that says exactly when the expectation is met.

- Fenced releases and leases on one channel do not mix: a lease completed and collected makes the consumer quiescent,
  and so open to a resize or a new producer, while an earlier release still waits for its fence. From a new channel
  `MixedReleases.MixingLosesFence` gets there. The storage can be lost after a lease if and only if some release queued
  at the moment of the lease has not signalled (`MixedReleases.MixingLosesStorage`). For the next producer's timeline
  the pending frame's own fence must be no obstacle either (`TimelineLosses.MixingLosesTimeline`). Runs whose leases
  find every queued release signalled never lose either (`RingRetirement.ReplacedOnlyWhenQuiet`). The header forbids
  mixing manual consumed-fence signalling with leases (include/framelink.h:332-345). Neither
  `RingTheorems.SingleRingSafety` nor `Relays.TwoHopSafety` depends on it.
- Dropping the held frame of a channel that retires storage explicitly can leave its slot waiting: a drained ring has
  every slot back if and only if the last frame taken was also announced (`RingReclamation.LeakExactlyAfterDrop`),
  which every run without such a drop guarantees (`RingReclamation.NoSlotLeak`). Every drop forgets its frame
  (`RingReclamation.DropForgets`), and `MixedReleases.DropLeaks` gets there from a new channel; announcing it is then up
  to the caller, who signals the value himself.
- The boundary verdict is weaker than judging the combined requirements against one joint path
  (`MemoryPolicy.CombinedIsStricter`); they agree exactly when every path supports what anyone requires
  (`MemoryPolicy.CombinedVerdict`).
- A running time that need not be mapped keeps its distance to another exactly when no mapping with a nonzero shift
  was installed in between (`Coordinators.RunningTimesKeepDistance`, `Coordinators.MappingMovesRunningTimes`).
- Two video buffers with one running time can let a frame overtake a GAP, because a dropped frame's barrier passes for
  the next frame's (`VideoOrder.EqualTimesMaySwap`). Every run over buffers of given running times keeps the order if
  and only if the times are pairwise different (`VideoOrder.OrderExactlyForDistinctTimes`).
- A complete video session need not reach its end: a sink that sends more than 32 GAPs in a row loses nothing and still
  leaves a source that cannot finish (`VideoLiveness.TooManyGaps`). With distinct running times the source can finish
  if and only if nothing was lost, the sink has ended and no such row was sent (`VideoLiveness.FinishesExactly`).

## Model

| member | source | states |
|---|---|---|
| SyncFences.ReadyPrefix | src/fl_sync_fd.hpp:8-24 | the longest prefix of queued releases whose fences have all signalled, and nothing past the first that has not |
| SyncFences.RaiseIncreasing | src/fl_sync_fd.hpp:19-24 | for increasing releases the raised counter is the value of the last one popped |
| SyncFences.SyncFds.Advance | src/fl_sync_fd.hpp:19-24 | exactly the ready prefix is popped, in order, and the counter becomes the largest of itself and the popped values |
| Leases.StepKeepsValid | src/fl_read_ledger.hpp:12-107 | every ledger operation, granted or refused, keeps: increasing values, distinct slots, one generation, bounded tables, every token pinning a queued frame and issued by the counter |
| Leases.RunKeepsValid | src/fl_read_ledger.hpp:12-107 | the same over every sequence of operations, and the token counter never goes back |
| Leases.TokensNeverReturn | src/fl_read_ledger.hpp:24-42 | a token once issued and no longer live is never live again, whatever operations follow |
| Leases.LeaseIsStable | src/fl_read_ledger.hpp:50-85 | between any two moments at which a token is live it denotes the same frame and generation, and a deferred token stays deferred |
| Leases.RetirementStopsAtReaders | src/fl_read_ledger.hpp:86-94 | retirement stays strictly below every frame that a live or deferred reader pins |
| Leases.RetiresMaximalPrefix | src/fl_read_ledger.hpp:86-106 | a frame is retired if and only if no frame up to it is pinned; the rest of the queue and all readers stay, and nothing is left to retire |
| ReadLedgers.TokenSource.Take | src/fl_read_ledger.hpp:24-30 | the next token, or 0 for ever once the counter is exhausted |
| ReadLedgers.TokenCount | src/fl_read_ledger.hpp:36-42 | a reader table without repeated tokens holds as many tokens as entries exactly when no entry is free |
| ReadLedgers.UnreadIffUnpinned | src/fl_read_ledger.hpp:86-94 | the reader count of a queued record is 0 if and only if no live token pins its frame |
| ReadLedgers.ReadLedger.constructor | src/fl_read_ledger.hpp:17-23 | a new ledger represents the empty queue with no readers |
| ReadLedgers.ReadLedger.Empty | src/fl_read_ledger.hpp:47-47 | true exactly when no frame is queued |
| ReadLedgers.ReadLedger.ResetEpoch | src/fl_read_ledger.hpp:49-49 | the epoch restarts only from an empty queue |
| ReadLedgers.ReadLedger.Find | src/fl_read_ledger.hpp:31-35 | finds an entry exactly when the token is live with the given pending mark |
| ReadLedgers.ReadLedger.AddReader | src/fl_read_ledger.hpp:36-42 | a fresh token for the given queued frame, or an unchanged representation when the table is full or tokens are exhausted |
| ReadLedgers.ReadLedger.Acquire | src/fl_read_ledger.hpp:50-65 | refines the abstract acquire: all refusals in the code's order and without effect, otherwise the frame is queued last under a fresh token |
| ReadLedgers.ReadLedger.Retain | src/fl_read_ledger.hpp:66-68 | refines the abstract retain: one more token on the frame of a live, undeferred one |
| ReadLedgers.ReadLedger.Get | src/fl_read_ledger.hpp:69-73 | the frame and generation the token was issued for; refused for unknown and deferred tokens |
| ReadLedgers.ReadLedger.Complete | src/fl_read_ledger.hpp:75-78 | removes exactly this reader, once |
| ReadLedgers.ReadLedger.Defer | src/fl_read_ledger.hpp:79-81 | marks the reader deferred; it goes on pinning its frame |
| ReadLedgers.ReadLedger.FinishDeferred | src/fl_read_ledger.hpp:82-85 | removes exactly this reader if it was deferred |
| ReadLedgers.ReadLedger.Retirement | src/fl_read_ledger.hpp:86-94 | generation and value of the last frame of the unpinned prefix, zeros for none |
| ReadLedgers.ReadLedger.Retired | src/fl_read_ledger.hpp:96-106 | accepts exactly the current retirement and then drops exactly the unpinned prefix; anything else changes nothing |
| BufferPins.CountersMeanPins | src/fl_buffer_refs.hpp:10-19 | a slot counter is nonzero if and only if a live token pins the slot, the total is 0 if and only if none is live |
| BufferPins.FullTable | src/fl_buffer_refs.hpp:23-30 | no entry is free if and only if 256 references are live |
| BufferPins.BufferReferences.Busy | src/fl_buffer_refs.hpp:18-18 | true exactly when some live reference pins the slot |
| BufferPins.BufferReferences.Empty | src/fl_buffer_refs.hpp:19-19 | true exactly when no reference is live |
| BufferPins.BufferReferences.Retain | src/fl_buffer_refs.hpp:20-31 | a token no reference ever had pins the slot, or nothing changes; each refusal has its cause |
| BufferPins.BufferReferences.Release | src/fl_buffer_refs.hpp:32-40 | each live token releases its pin exactly once, counters included |
| RingSteps.StepKeepsInv | src/framelink_linux.cpp:292-901 | each of the 21 steps of producer, consumer, accept thread and fences keeps the ring invariant |
| RingTheorems.RunKeepsInv | src/framelink_linux.cpp:292-901 | so does every run |
| RingTheorems.OrderOfValues | src/framelink_linux.cpp:115-134 | consumed <= released < leased < held < pending < in flight <= ready < sentinel, strictly increasing along the live frames |
| RingTheorems.SingleRingSafety | src/framelink_linux.cpp:666-862 | in every reachable state a slot the producer has reserved or may reserve is not held, leased, pending or in flight; the fence of every release of a frame of that slot has signalled, and so has every fence the end of a leased read of it was left to |
| RingTheorems.DeferredReadEnds | src/framelink_linux.cpp:876-901 | along every run: once the end of a read is left to a fence, the slot of its frame is usable again in that generation only after that fence has signalled |
| RingTheorems.PollFinishesExactly | src/framelink_linux.cpp:876-889 | a poll finishes the readers whose fence has signalled and no others, and forgets exactly their completions |
| RingFences.StepKeepsFences | src/framelink_linux.cpp:292-901 | every step keeps: a deferred read whose fence has not signalled still pins its frame, every reader left to a fence waits for it, and frames in flight, pending, held or leased are announced with the time and fence they were submitted with |
| RingFences.RunKeepsFences | src/framelink_linux.cpp:292-901 | so does every run |
| RingTheorems.ReadsAreIntact | src/framelink_linux.cpp:764-790 | in every run the held frame and every leased one is a published frame under its own slot and image whose submit fence has signalled, or is the reader's own to wait for |
| RingOutcomes.AcquireExactly | src/framelink_linux.cpp:666-694 | an acquire hands out the lowest slot that is unreserved, unpinned and either unused or covered by a release read and signalled in order, and times out only when there is none |
| RingOutcomes.CancelExactly | src/framelink_linux.cpp:696-706 | a reserved slot is given back unless its submit is open; nothing else is |
| RingOutcomes.BeginExactly | src/framelink_linux.cpp:708-724 | a submit opens, under the value after the last published one, exactly on a reserved slot while none is open and a value is left |
| RingOutcomes.EndExactly | src/framelink_linux.cpp:726-744 | the open submit, and nothing but it, is announced under the next value |
| RingOutcomes.SubmitExactly | src/framelink_linux.cpp:848-862 | the same in one call with its fence |
| RingOutcomes.PinExactly | src/fl_buffer_refs.hpp:20-31 | a reserved slot is pinned exactly while fewer than 256 references are live and a token is left |
| RingOutcomes.FrameExactly | src/framelink_linux.cpp:387-407 | an announcement read becomes the pending frame whatever was pending, and never ends the link |
| RingOutcomes.TakeExactly | src/framelink_linux.cpp:764-790 | the pending frame is taken exactly when none is held and its submit fence has signalled or is the reader's own, with the slot and time it was submitted with; with nothing in flight it is the newest published |
| RingOutcomes.GiveBackExactly | src/framelink_linux.cpp:792-811 | the held frame is released and announced once, exactly when nothing is leased |
| RingOutcomes.DropExactly | src/framelink_linux.cpp:817-826 | dropping it silently is left to channels that retire explicitly |
| RingOutcomes.LeaseExactly | src/fl_read_api.inc:10-22 | on every ring that satisfies the invariant a lease is decided by the channel's mode, by the frame being the held one under its own image, and by a reader entry and a token being left; a place in the queue always is |
| RingOutcomes.RetainExactly | src/fl_read_ledger.hpp:66-68 | a live reader not left to a fence gets a companion on its own frame while an entry and a token are left |
| RingOutcomes.CompleteExactly | src/fl_read_ledger.hpp:75-78 | a live reader not left to a fence ends, and no other does |
| RingOutcomes.DeferExactly | src/framelink_linux.cpp:890-901 | such a reader is left to its fence while a completion entry is free, and goes on pinning its frame |
| RingOutcomes.CollectExactly | src/fl_read_api.inc:44-57 | collecting retires the longest run of leased frames without a reader that is still to finish, and announces the last of them |
| RingOutcomes.AskExactly | src/framelink_linux.cpp:624-637 | a geometry request goes out exactly for a legal size of a known format while nothing is reserved or pinned |
| RingOutcomes.RequestExactly | src/framelink_linux.cpp:367-386 | it is honoured exactly when it asks for another size of the channel's own storage in its format and nothing of the old storage is held, leased or still read, and answered either way |
| RingOutcomes.AttachExactly | src/framelink_linux.cpp:322-336 | a producer attaches, with every slot free, exactly when nothing of the old timeline is held, leased, still read or still being written |
| RingOutcomes.ResizeGoesThrough | src/framelink_linux.cpp:367-386 | under these conditions a request, the reading of both sockets and nothing else bring both ends to the next generation with the new size, the new pool and every slot free |
| RingReclamation.NoSlotLeak | src/framelink_linux.cpp:115-134 | in every run that drops no frame, in any release mode and however many frames were skipped, a drained ring offers every slot neither reserved nor pinned, and acquire succeeds if and only if there is one |
| RingReclamation.LeakExactlyAfterDrop | src/framelink_linux.cpp:817-828 | with drops, a drained ring has every unreserved slot consumed if and only if the last frame taken was announced |
| RingReclamation.DropForgets | src/framelink_linux.cpp:817-826 | dropping the held frame of a channel that retires explicitly always leaves it unannounced |
| MixedReleases.DropLeaks | src/framelink_linux.cpp:817-826 | a run from a new channel to a drained ring with a slot that is not consumed |
| RingReclamation.StepKeepsAccount | src/framelink_linux.cpp:764-828 | no step but dropping the held frame loses track of a frame taken: the newest is held, leased or the last announced |
| RingReclamation.ReadingDrains | src/framelink_linux.cpp:415-435 | once the consumer is done and every fence has signalled, reading its socket is all a producer still has to do |
| RingTheorems.HistoriesBelongToGeneration | src/framelink_linux.cpp:322-340 | a step either extends the histories of published frames, what was submitted with them, releases and deferred reads, or starts a generation one higher with all of them empty |
| RingTheorems.GenerationIsolation | src/framelink_linux.cpp:322-386 | in every run, a submitted slot that is free again was freed by a release announced after its generation began, with the fence signalled |
| RingTheorems.FreedByOwnGeneration | src/framelink_linux.cpp:415-424 | in every state satisfying the invariant, some announced and signalled release of this generation covers a slot that became free |
| RingTheorems.ReplacedOnlyWhenIdle | src/framelink_linux.cpp:322-386 | a generation changes only with nothing held or leased and the consumer quiescent; a resize also finds no reserved slot, pin or frame in flight |
| RingRetirement.StepKeepsRetires | src/framelink_linux.cpp:792-889 | every step keeps, as long as leases find all queued releases signalled: an unsignalled release is still queued with a value ahead of the retired one, and none is queued behind a lease |
| RingRetirement.ReplacedOnlyWhenQuiet | src/framelink_linux.cpp:322-386 | over every run whose leases find all queued releases signalled, a generation changes only when every fence announced in it has signalled |
| RingTheorems.OldProducerIsBlocked | src/framelink_linux.cpp:624-664 | while the ends differ in generation the producer waits for its reply, reserves and pins nothing, and no frame is live |
| RingTheorems.SameGenerationReply | src/framelink_linux.cpp:624-664 | a refusal or no-op reply changes nothing but the end of the wait |
| RingTheorems.ReleasedPinsNeverReturn | src/fl_buffer_refs.hpp:20-40 | a released reference token never pins again in any run |
| RingTheorems.PinHoldsSlot | src/framelink_linux.cpp:624-706 | a step that leaves a reference live neither hands out its slot nor starts a geometry request nor changes the images |
| RingTheorems.PinSafety | src/framelink_linux.cpp:624-706 | the same along every run during which the reference stays live, cancels and submits included |
| MixedReleases.MixingLosesStorage | src/fl_read_api.inc:44-57 | on a reachable ring with its own storage and a live link: after a lease some continuation without a signal or another mixed lease replaces the storage under a running fence if and only if a release queued at the lease had not signalled |
| TimelineLosses.MixingLosesTimeline | src/framelink_linux.cpp:322-336 | on every reachable ring: after a lease some continuation without a signal or another mixed lease lets the next producer renew the timeline under a running fence if and only if a release queued at the lease had not signalled and the pending frame's fence has signalled, a frame with a signalled fence is in flight, or the producer can publish another |
| TimelineLosses.StuckLosesNothing | src/framelink_linux.cpp:322-336 | while the pending frame's fence runs and no other frame can replace it, no run without a signal or another mixed lease ends in an attachment that loses anything |
| TimelineLosses.PublishLoses | src/framelink_linux.cpp:624-753 | a producer with an open submit, a reserved slot or one it can still get clears the pending frame whatever it is doing, blocked requests included |
| MixedReleases.SignalledLosesNothing | src/framelink_linux.cpp:868-875 | a lease that finds all queued releases signalled opens no way to renew the ring under a running fence |
| MixedReleases.MixingLosesFence | src/framelink_linux.cpp:868-875 | a run from a new channel to a lease after which the storage can be replaced while fence 9 is running |
| ProducerChannels.AdvanceIsIncremental | src/framelink_linux.cpp:415-424 | retiring early and again after more releases arrive equals retiring once at the end |
| ProducerChannels.DrainRetiresOnce | src/framelink_linux.cpp:427-435 | reading messages one at a time, retiring after each, ends where queueing all releases and retiring once does |
| ProducerChannels.AcquireIsRun | src/framelink_linux.cpp:666-694 | one acquire round is a run of the ring machine: one receive per queued message, then the scan |
| ProducerChannels.AwaitIsRun | src/framelink_linux.cpp:638-662 | blocking for a geometry reply is a run of receives that ends the wait |
| ProducerChannels.ProducerChannel.constructor | src/framelink_linux.cpp:528-584 | a producer that adopted its first ring description has every slot free and value zero |
| ProducerChannels.ProducerChannel.DrainMessages | src/framelink_linux.cpp:427-435 | empties the inbox, applying every release and ignoring the rest |
| ProducerChannels.ProducerChannel.AcquireBuffer | src/framelink_linux.cpp:666-694 | drains, retires, and reserves the lowest slot with a consumed submit and no pin, or reports a timeout |
| ProducerChannels.ProducerChannel.CancelBuffer | src/framelink_linux.cpp:696-706 | frees exactly a reserved slot given by its own image that has no open submit |
| ProducerChannels.ProducerChannel.BeginSubmit | src/framelink_linux.cpp:708-724 | opens at most one transaction, with the next value, on a reserved slot |
| ProducerChannels.ProducerChannel.EndSubmit | src/framelink_linux.cpp:726-744 | closes exactly the open transaction, stamps the slot and announces the frame once |
| ProducerChannels.ProducerChannel.Submit | src/framelink_linux.cpp:746-753 | begin and end together: one announcement without a fence, or no change |
| ProducerChannels.ProducerChannel.SubmitSyncFd | src/framelink_linux.cpp:848-862 | the same in one call, announced with the fence that readers must wait for; its refusals in the code's order, each without effect |
| ProducerChannels.ProducerChannel.RetainReference | src/fl_read_api.inc:91-94 | pins only a reserved slot given by its own image |
| ProducerChannels.ProducerChannel.ReleaseReference | src/fl_read_api.inc:95-98 | unpins exactly this reference |
| ProducerChannels.ProducerChannel.RequestGeometry | src/framelink_linux.cpp:624-664 | refused with a bad size, a dead link, a pin or a reserved slot; otherwise applies releases until the reply and adopts it |
| ProducerChannels.ProducerChannel.AwaitReply | src/framelink_linux.cpp:638-662 | reads releases inline up to the reply and leaves later messages queued |
| ProducerChannels.ProducerChannel.ImportRing | src/framelink_linux.cpp:586-622 | a new ring starts with all slots free, nothing consumed and nothing submitted |
| ConsumerChannels.FullTable | src/framelink_linux.cpp:890-901 | the completion table has no free entry if and only if 256 completions are outstanding |
| ConsumerChannels.ConsumerChannel.constructor | src/framelink_linux.cpp:473-509 | a channel nobody is attached to: nothing pending, held, leased or released |
| ConsumerChannels.ConsumerChannel.ReceiveFrame | src/framelink_linux.cpp:387-407 | the newest announcement replaces an unread one and counts; a slot outside the ring ends the link |
| ConsumerChannels.ConsumerChannel.ReceiveGeometry | src/framelink_linux.cpp:367-386 | always answers with a ring description, and only an honoured request changes generation, size and storage |
| ConsumerChannels.ConsumerChannel.ReplaceStorage | src/framelink_linux.cpp:371-383 | retires what has signalled, and replaces the storage exactly when nothing is held, leased or unretired |
| ConsumerChannels.ConsumerChannel.Renew | src/framelink_linux.cpp:330-334 | a new generation forgets the pending frame and every old value and release |
| ConsumerChannels.ConsumerChannel.AttachProducer | src/framelink_linux.cpp:322-336 | busy, or a new generation from value one whose first message is the ring |
| ConsumerChannels.ConsumerChannel.TakeFrame | src/framelink_linux.cpp:764-790 | hands out the pending frame exactly when none is held and its fence has signalled or is passed on |
| ConsumerChannels.ConsumerChannel.ReleaseSyncFd | src/framelink_linux.cpp:792-811 | only the held frame, only without leases; queued and announced with its fence |
| ConsumerChannels.ConsumerChannel.ReleaseHeld | src/framelink_linux.cpp:817-828 | bookkeeping alone on channels that retire explicitly, otherwise a release announced without a fence |
| ConsumerChannels.ConsumerChannel.LeaseHeld | src/fl_read_api.inc:10-22 | turns exactly the held frame into a lease under a fresh token; every refusal leaves it held |
| ConsumerChannels.ConsumerChannel.RetainReadLease | src/fl_read_api.inc:23-29 | a further token on the frame of a live lease |
| ConsumerChannels.ConsumerChannel.CompleteReadLease | src/fl_read_api.inc:35-43 | ends exactly this reader and retires nothing yet |
| ConsumerChannels.ConsumerChannel.CompleteReadLeaseSyncFd | src/framelink_linux.cpp:890-901 | the reader stays pinned until its fence; refused for dead or already deferred tokens and when 256 wait |
| ConsumerChannels.ConsumerChannel.PollLeaseCompletions | src/framelink_linux.cpp:876-889 | finishes exactly the deferred readers whose fences have signalled (`RingTheorems.PollFinishesExactly`) |
| ConsumerChannels.ConsumerChannel.CollectReadLeases | src/fl_read_api.inc:44-57 | announces and drops exactly the completed prefix; Busy means a live reader blocks the front |
| Relays.LeaseSurvives | samples/native_relay.h:36-53 | no upstream step but its own completion or deferral ends a lease or changes the allocation it denotes |
| Relays.MoveKeepsInv | samples/native_relay.h:20-76 | every move of relay, channels and peers keeps the joint invariant |
| Relays.RunKeepsJointInv | samples/native_relay.h:20-76 | so does every run of moves |
| Relays.RunKeepsJointFences | samples/native_relay.h:20-76 | every run of moves keeps what the fences of the downstream ring promise |
| Relays.RingsJoin | samples/native_relay.h:16-17 | any two rings grown from new channels may be joined by a relay while no geometry request waits downstream |
| Relays.LeasePinsAllocation | samples/native_relay.h:65-66 | a leased allocation is in no slot the upstream producer has or may reserve |
| Relays.TwoHopSafety | samples/native_relay.h:34-76 | in every run, poisoned or not, an allocation the upstream producer has or may reserve is not in flight to, pending at, held by or leased to the downstream consumer, and downstream the fences of its releases and of its deferred reads have signalled |
| Relays.PoisonedKeepsLeases | samples/native_relay.h:54-69 | after failure no lease the relay kept is ever completed: each stays live upstream for its allocation |
| Relays.OwnChecksNeverFire | samples/native_relay.h:40-51 | on a live link an acquire never returns a slot already kept, completing a lease never fails, and cancelling a reserve always succeeds |
| RelayReclamation.RunKeepsHanded | samples/native_relay.h:36-76 | along every run of moves that leases nothing, each lease not about to be completed belongs to a slot that was submitted downstream |
| RelayReclamation.ForwardKeepsHanded | samples/native_relay.h:65-70 | so it does after a lease whose submit goes through |
| RelayReclamation.CollectedEndsLeases | samples/native_relay.h:36-53 | with the downstream ring drained and nothing left to take back the relay keeps no upstream lease |
| RelayReclamation.UpstreamDrains | samples/native_relay.h:36-53 | one more collection and the upstream producer's reading of it then drain the upstream ring, if nobody else reads there |
| RelayReclamation.NothingLeaksThroughRelay | samples/native_relay.h:34-76 | in every run of the joint machine that drops no frame: a drained downstream ring and a settled relay mean no lease is left and every upstream slot neither reserved nor pinned becomes free |
| RelayReclamation.SignalledReadersCollect | src/fl_read_api.inc:44-57 | once every reader left its end to a fence that has signalled, collecting retires every leased frame and announces the last |
| RelayOutcomes.ForwardExactly | samples/native_relay.h:57-70 | for a reserved slot of the frame's allocation the outcome, stated on the fields of both rings, is what the lease and the submit answer |
| RelayOutcomes.OneTarget | samples/native_relay.h:59-60 | no two slots hold one allocation, so the search never finds two |
| RelayOutcomes.OwnRingIsServed | samples/native_relay.h:20-33 | a downstream ring all of whose slots were free beforehand is served, and one with a slot reserved by somebody else or pinned is not |
| NativeRelays.DrainMoves | samples/native_relay.h:41-41 | the messages an acquire reads are receive moves of the downstream ring |
| NativeRelays.NothingLeft | samples/native_relay.h:41-42 | an acquire that timed out would time out again |
| NativeRelays.FullReserve | samples/native_relay.h:28-31 | as many reserved slots as the pool has are all of its slots |
| NativeRelays.NativeRelay.constructor | samples/native_relay.h:16-17 | starts with no slot, lease or failure, in the initial joint state |
| NativeRelays.NativeRelay.TakeBack | samples/native_relay.h:41-45 | one acquire as moves: a slot not kept before joins the reserve, a timeout means none is free, and it poisons exactly when the link is gone |
| NativeRelays.NativeRelay.CompleteOne | samples/native_relay.h:46-48 | the lease of a slot that came back is completed, which never fails, and the in-flight count follows |
| NativeRelays.NativeRelay.Settle | samples/native_relay.h:46-50 | completes that lease and retires what it frees upstream, without fail |
| NativeRelays.NativeRelay.Collect | samples/native_relay.h:36-53 | refused unless the relay runs, disconnected and poisoned exactly when a generation changed or the link is gone, otherwise a sequence of reads, acquires, completions and retirements after which no downstream slot is left to take back, every other slot is untouched and every slot back in reserve owes nothing upstream; no lease is in flight if the downstream ring is drained |
| NativeRelays.NativeRelay.LeaseInto | samples/native_relay.h:65-66 | the upstream lease replaces the reservation of the slot with the frame's own allocation, or nothing changes and the lease's own answer is returned |
| NativeRelays.NativeRelay.SubmitFrom | samples/native_relay.h:67-68 | one downstream announcement of the leased slot, or the relay is poisoned with the lease kept |
| NativeRelays.NativeRelay.Forward | samples/native_relay.h:57-70 | after the collection the answer is decided by the fields it leaves: unknown allocation if no reserved slot holds the frame's, otherwise success if and only if the frame is the held one with a reader entry and a token left and downstream no submit is open and a value is left; success is exactly collect, lease, submit on the frame's own allocation, announced once with its time and counted; only a failed submit poisons, every other refusal leaves the frame held |
| NativeRelays.NativeRelay.CancelAll | samples/native_relay.h:74-74 | every reservation is given up and no lease is touched |
| NativeRelays.NativeRelay.Finish | samples/native_relay.h:72-76 | ends if and only if the collection succeeds and leaves no lease in flight; busy means one is, no slot has come back and the downstream ring is not drained |
| NativeRelays.NativeRelay.Initialize | samples/native_relay.h:20-33 | the refusals in order, each without effect; disconnected and poisoned exactly without a link; otherwise serves if and only if the collection reserved every slot of the downstream ring, and is busy and as uninitialised as before if not |
| MemoryPolicy.Combine | src/framelink_memory.cpp:68-83 | first error in order, incompatible for no common resource, otherwise united demands and intersected permissions |
| MemoryPolicy.CombinedMeaning | src/framelink_memory.cpp:68-83 | bit by bit: a demand of anyone is demanded, a permission of everyone is permitted |
| MemoryPolicy.CombinedBits | src/framelink_memory.cpp:68-83 | the same of every single bit, preferences included |
| MemoryPolicy.ValidMeaning | src/framelink_memory.cpp:30-38 | which requirements are valid, as numbers, and which are of another version |
| MemoryPolicy.ValidPathMeaning | src/framelink_memory.cpp:40-49 | a valid path names exactly one known resource type |
| MemoryPolicy.DecisionBits | src/framelink_memory.cpp:51-66 | the diagnostics bit by bit: demanded, preferred, disallowed and unpermitted bits, each with its cause |
| MemoryPolicy.BoundaryBits | src/framelink_memory.cpp:85-103 | what a boundary reports of each endpoint, bit by bit: its own path, and everybody's operations it does not permit |
| MemoryPolicy.EvaluateBoundary | src/framelink_memory.cpp:85-103 | first error in order without output, otherwise the verdict and one decision per endpoint |
| MemoryPolicy.EvaluateEach | src/framelink_memory.cpp:96-102 | each endpoint judged on its own path with everybody's operations |
| MemoryPolicy.BoundaryMeaning | src/framelink_memory.cpp:85-103 | agreement if and only if all are valid with one resource, each path meets its own demands, and everyone permits everyone's operations |
| MemoryPolicy.AgreedByMembers | src/framelink_memory.cpp:85-103 | the verdict depends only on which endpoints take part and on there being 1 to 16 |
| MemoryPolicy.PermutationInvariant | src/framelink_memory.cpp:85-103 | any two lists with the same multiset of endpoints get the same verdict |
| MemoryPolicy.AddingOnlyLoses | src/framelink_memory.cpp:85-103 | removing an endpoint from anywhere in an agreed list leaves an agreed list |
| MemoryPolicy.AgreedCombines | src/framelink_memory.cpp:68-103 | an agreed boundary always has combined requirements |
| MemoryPolicy.CombinedVerdict | src/framelink_memory.cpp:51-103 | the combined requirements accept the joint path if and only if the boundary agrees and every path supports what anyone demands |
| MemoryPolicy.CombinedIsStricter | src/framelink_memory.cpp:51-103 | a concrete agreed boundary whose combined requirements reject the joint path |
| MemoryCodec.PutWord | src/framelink_memory.cpp:10-12 | writes four little-endian bytes in place and nothing else |
| MemoryCodec.Encode | src/framelink_memory.cpp:105-121 | the 64-byte message of valid requirements; any refusal leaves the buffer unchanged |
| MemoryCodec.Decode | src/framelink_memory.cpp:123-140 | size, magic, version, zero padding and validity in the code's order, then the value read |
| MemoryCodec.DecodeEncoded | src/framelink_memory.cpp:105-140 | decoding the encoding of valid requirements returns them |
| MemoryCodec.EncodeDecoded | src/framelink_memory.cpp:105-140 | an accepted message is the encoding of the valid requirements read from it |
| WireLayouts.RequirementsLayout | src/framelink_memory.cpp:105-121 | which of the 64 bytes hold which mask, least significant byte first, the rest zero |
| WireLayouts.MemoryOfferLayout | samples/av_memory_agreement.cpp:16-24 | which of the 160 bytes hold magic, role, nonce, requirements, path and binding |
| MemoryCodec.OfferRoundTrip | samples/av_memory_agreement.cpp:16-31 | every valid offer is decoded as itself, by the peer's role and not by its own |
| MemoryCodec.MutualAgreement | samples/av_memory_agreement.cpp:40-61 | both ends of an honest exchange reach the same verdict and finish together, each with the other's offer, or both refuse |
| MemoryCodec.AllocationMeaning | gst/gstframelink.cpp:217-225 | an allocation query is allowed if and only if it decodes, both ends agree without it, the local path provides its resource and the support it demands, and it permits both ends' operations |
| MemoryCodec.AllocationOnlyRestricts | gst/gstframelink.cpp:217-225 | an allowed allocation query implies the boundary agreed without it, its demands met by the local path and remote operations permitted by it |
| Sessions.SameVideoIsSameRate | src/framelink_session.cpp:15-15 | the cross product compares formats, sizes and the frame rates as exact rationals |
| Sessions.PickVideo | src/framelink_session.cpp:36-36 | the producer's first format the consumer also offers, none exactly when there is no common one |
| Sessions.PickAudioPass | src/framelink_session.cpp:37-40 | one pass finds the first candidate or proves there is none |
| Sessions.PickAudio | src/framelink_session.cpp:37-40 | the first common 48 kHz format, else the first common one, none exactly when there is none |
| Sessions.Negotiate | src/framelink_session.cpp:30-43 | the exact reason of a failure, otherwise the specified optimum of both tracks |
| Sessions.SuccessIsSymmetric | src/framelink_session.cpp:30-43 | negotiation succeeds in one direction if and only if it does in the other |
| Sessions.SelfNegotiates | src/framelink_session.cpp:30-43 | valid capabilities always agree with themselves |
| Sessions.NegotiationIsSound | src/framelink_session.cpp:59-71 | every negotiated choice in a valid configuration passes the selection check against both offers |
| Sessions.SelectionMeaning | src/framelink_session.cpp:59-71 | a selection passes if and only if all three inputs are valid and of one version, each peer offers a track exactly when it is selected, and for each selected track some format in either list has the same format, size and exact rate, or is the same audio format |
| Sessions.ValidateSelection | src/framelink_session.cpp:59-71 | the loops over both offers compute it, with the code's errors in order |
| Sessions.CapsMeaning | src/framelink_session.cpp:16-24 | which capabilities are valid, entry by entry |
| Sessions.ValidMeaning | src/framelink_session.cpp:44-58 | which configurations are valid, field by field |
| Sessions.ReplacementMeaning | src/framelink_session.cpp:72-77 | a replacement is accepted if and only if it continues the same session under a later generation |
| Sessions.ReplacementsCompose | src/framelink_session.cpp:72-77 | accepted replacements are a strict order: they compose, and the way back is stale |
| Sessions.MapPtsMeaning | src/framelink_session.cpp:106-114 | the mapped time is the exact shift; refused exactly when it, or epoch plus time, leaves the range |
| Sessions.MapPtsExactly | src/framelink_session.cpp:106-114 | each answer with its cause, in terms of the clocks, the anchors, the uncertainty and the exact sum |
| Sessions.MapPtsKeepsDifferences | src/framelink_session.cpp:106-114 | any two mapped times keep their difference |
| ByteFields.ValueOfLe | src/framelink_session.cpp:26-27 | reading n little-endian bytes written from a value that fits returns it |
| ByteFields.LeOfValue | src/framelink_session.cpp:26-27 | writing the value read from bytes returns the bytes |
| ByteFields.SplitOfFlatten | src/framelink_session.cpp:78-105 | cutting a message into its field widths recovers the fields written |
| ByteFields.FlattenOfSplit | src/framelink_session.cpp:78-105 | joining the cut fields recovers the message |
| SessionCodec.WriteFields | src/framelink_session.cpp:81-87 | the advancing write pointer fills the buffer with the fields in order, without gap or overlap |
| SessionCodec.Encode | src/framelink_session.cpp:78-89 | the 160-byte message of a valid configuration; a refusal leaves the buffer unchanged |
| SessionCodec.Decode | src/framelink_session.cpp:90-105 | the code's checks in order, then the configuration read |
| SessionCodec.DecodeEncoded | src/framelink_session.cpp:78-105 | decoding the encoding of a valid configuration returns it |
| SessionCodec.EncodeDecoded | src/framelink_session.cpp:78-105 | an accepted message is the encoding of the valid configuration read from it |
| SessionCodec.EncodedIsInjective | gst/framelink_session_context.cpp:123-129 | comparing messages is comparing valid configurations |
| WireLayouts.SessionLayout | src/framelink_session.cpp:78-89 | which of the 160 bytes hold which field, least significant byte first, the padding zero |
| WireLayouts.SessionAccepts | src/framelink_session.cpp:90-105 | a message is accepted and read as a configuration if and only if that one is valid and laid out so |
| Handshake.EncodableMeaning | gst/framelink_session_transport.cpp:37-39 | an offer is encodable exactly when it is of the optional-track version and negotiates with itself |
| Handshake.EncodeOffer | gst/framelink_session_transport.cpp:37-47 | the 268-byte canonical offer, unused entries zero; a refusal writes nothing |
| Handshake.DecodeOfferBytes | gst/framelink_session_transport.cpp:37-54 | every encodable offer is decoded as itself |
| Handshake.OffersAreDistinct | gst/framelink_session_transport.cpp:48-54 | bytes decode to an offer if and only if they are that offer's encoding |
| WireLayouts.OfferLayout | gst/framelink_session_transport.cpp:37-47 | which of the 268 bytes hold version, counts and each entry of both lists |
| Handshake.BestIsUnique | src/framelink_session.cpp:30-43 | two offers determine at most one selection |
| Handshake.Select | gst/framelink_session_transport.cpp:81-84 | a selection that is valid for both offers, refused exactly when there is none |
| Handshake.HonestReply | gst/framelink_session_transport.cpp:81-88 | whenever the producer selects, the consumer decodes that very configuration and validates it against both offers |
| Handshake.HonestAgreement | gst/framelink_session_transport.cpp:81-92 | the consumer confirms it, the producer takes the confirmation, and each coordinator holds the configuration if it admits it and is cancelled otherwise |
| Handshake.NewCoordinatorsAgree | gst/framelink_session_transport.cpp:81-92 | two new coordinators for the selected tracks end up holding the same configuration |
| Handshake.CompatibleOffersSelect | gst/framelink_session_transport.cpp:81-84 | compatible offers and a proposal that fits their tracks always lead to a selection |
| SampleClock.SampleOffsetExact | src/framelink_session.cpp:115-121 | equals floor(index * 10^9 / rate), and is refused exactly when that exceeds 63 bits |
| SampleClock.FloorMonotone | src/framelink_session.cpp:115-121 | later samples never have earlier times |
| SampleClock.NoWrap | src/framelink_session.cpp:115-121 | a sample index with a representable time is itself below 2^63 |
| SampleClock.BudgetIsCeiling | gst/gstframelinkaudio.cpp:71-71 | the byte budget is the least number of whole frames that last as long as the queue |
| AudioTimelines.AudioTimeline.Track | samples/audio_timeline.h:49-81 | accepts or invalidates one block, observer failure and playback overflow included; once invalid always invalid |
| AudioTimelines.AcceptedBlock | samples/audio_timeline.h:52-61 | an accepted block has its exact start and duration and nothing wrapped around |
| AudioTimelines.ExactlyContiguous | samples/audio_timeline.h:49-81 | in every accepted stream each block starts exactly where the previous ended, at the floor of its sample index, and durations add up to the floor of the total |
| AudioTimelines.DurationsAddUp | samples/audio_timeline.h:52-81 | the durations of any accepted stream sum to the floor of the total sample count |
| AudioTimelines.AcceptsExactly | samples/audio_timeline.h:49-81 | a stream is passed on if and only if every block starts exactly where the samples before it end, lasts exactly its own, is whole, observed and playable without overflow |
| AudioSinks.AudioSink.Inspect | gst/gstframelinkaudio.cpp:32-82 | one GAP, flush or block: reject for good, re-anchor, or count it |
| AudioSinks.AcceptedBlock | gst/gstframelinkaudio.cpp:69-76 | start and duration within 1 ns of the sample clock counted from the anchor |
| AudioSinks.KeepsAnchor | gst/gstframelinkaudio.cpp:73-82 | the anchor survives any accepted unbroken stream and the count is the sum of its blocks |
| AudioSinks.KeepsDistance | gst/gstframelinkaudio.cpp:69-82 | behind one anchor any two blocks are within 2 ns of the distance of their sample times |
| AudioSinks.StandsAt | gst/gstframelinkaudio.cpp:48-82 | after any accepted stream the sink keeps the time of its latest anchor and the samples counted since |
| AudioSinks.NeverAccumulates | gst/gstframelinkaudio.cpp:48-82 | from a new sink, in every accepted stream with any discontinuities and GAPs, each block starts within 1 ns of its latest anchor plus the floor of the samples since, and lasts within 1 ns of its own samples |
| AudioSinks.AcceptsExactly | gst/gstframelinkaudio.cpp:32-82 | a stream is accepted if and only if every GAP is in range and every block is well formed and within 1 ns of the clock counted from its latest anchor |
| AudioSinks.TotalsAreExact | gst/gstframelinkaudio.cpp:73-82 | the totals count every accepted block and byte whatever anchors the stream has |
| Coordinators.CallKeepsInv | gst/framelink_session_context.cpp:49-159 | every call keeps: ready implies registered implies required, readiness only while configured and not cancelled, claims only of a published stream |
| Coordinators.GenerationsIncrease | gst/framelink_session_context.cpp:49-61 | over every sequence of calls successful configurations carry strictly increasing generations |
| Coordinators.FixedWithinGeneration | gst/framelink_session_context.cpp:49-159 | generations never go back, and within one the configuration, an installed mapping, the video terminal accounting and the audio claim never change |
| Coordinators.ReadyMeansReady | gst/framelink_session_context.cpp:62-86 | a successful wait for g comes after a configuration of g with no later configure or cancel, since which every required track reported ready for g, each having registered |
| Coordinators.ClaimedOnce | gst/framelink_session_context.cpp:130-135 | the audio stream is claimed at most once per generation |
| Coordinators.MappedTimesKeepDistance | gst/framelink_session_context.cpp:105-112 | any two times mapped in one generation keep their difference, whatever calls lie between |
| Coordinators.RunningTimesKeepDistance | gst/framelink_session_context.cpp:143-150 | without a mandatory mapping the difference is kept if and only if no mapping with a nonzero shift was installed between |
| Coordinators.MappingMovesRunningTimes | gst/framelink_session_context.cpp:143-150 | from every new audio-only coordinator, a configure and a mapping after which time 0 is answered 0 and then 5 |
| Coordinators.PublishComparesMessages | gst/framelink_session_context.cpp:123-129 | the byte comparison of encoded configurations on publishing is equality of configurations |
| CoordinatorHistory.WaitExactly | gst/framelink_session_context.cpp:76-86 | along every sequence of calls from a new coordinator a wait is granted if and only if its generation was configured, neither configured again nor cancelled since, and every required track reported ready for it since; it answers that configuration |
| CoordinatorHistory.WaitRefusals | gst/framelink_session_context.cpp:76-86 | a wait is cancelled exactly after a cancel with no later configuration, and stale exactly while another generation is configured |
| CoordinatorHistory.ConfigureExactly | gst/framelink_session_context.cpp:49-61 | a configuration is granted if and only if it is valid, in both offers and for exactly the required tracks, and continues the session last configured under a later generation |
| CoordinatorHistory.HeldWasOffered | gst/framelink_session_context.cpp:49-61 | whatever configuration a coordinator holds is in both offers it was configured with |
| CoordinatorHistory.OneSession | gst/framelink_session_context.cpp:49-61 | all configurations of one coordinator are of one session, in the order of their generations |
| CoordinatorHistory.RegisterExactly | gst/framelink_session_context.cpp:62-67 | a registration is granted if and only if the track is required and was not registered before |
| CoordinatorHistory.ReportExactly | gst/framelink_session_context.cpp:68-75 | a report is granted if and only if its generation is running and the track was registered |
| CoordinatorHistory.MappingExactly | gst/framelink_session_context.cpp:95-104 | a mapping is installed if and only if it maps time zero and contradicts none installed in the running generation |
| CoordinatorHistory.MapExactly | gst/framelink_session_context.cpp:105-112 | a time is mapped if and only if a mapping was installed since the configuration and the time has an image, which is the answer |
| CoordinatorHistory.RunningTimeExactly | gst/framelink_session_context.cpp:143-150 | without a mandatory mapping a running time passes as it is exactly as long as none was installed |
| CoordinatorHistory.PublishExactly | gst/framelink_session_context.cpp:123-129 | a publication is granted if and only if it is the first for exactly the running configuration |
| CoordinatorHistory.ClaimExactly | gst/framelink_session_context.cpp:130-135 | a claim is granted if and only if that role published in the running generation and nobody claimed it yet |
| CoordinatorHistory.EndExactly | gst/framelink_session_context.cpp:151-159 | accounting is recorded if and only if it is consistent, the running session has video, and nothing else was recorded in it |
| CoordinatorHistory.EndWaitExactly | gst/framelink_session_context.cpp:160-169 | the wait for it is over exactly once it was recorded in the running generation, and answers what was |
| Coordinators.FlGstSession.constructor | gst/framelink_session_context.cpp:33-36 | a coordinator with required tracks and nothing else |
| Coordinators.FlGstSession.DoConfigure | gst/framelink_session_context.cpp:49-61 | refuses invalid selections, foreign tracks and stale generations; otherwise starts the generation from nothing but registrations |
| Coordinators.FlGstSession.RegisterTrack | gst/framelink_session_context.cpp:62-67 | each required track once |
| Coordinators.FlGstSession.ReportReady | gst/framelink_session_context.cpp:68-75 | only registered tracks, only for the current generation, never after a cancel |
| Coordinators.FlGstSession.PollReady | gst/framelink_session_context.cpp:76-86 | one look of the wait loop: cancelled, stale, ready with the configuration, or keep waiting (`CoordinatorHistory.WaitExactly`) |
| Coordinators.FlGstSession.DoCancel | gst/framelink_session_context.cpp:87-93 | cancels and forgets readiness |
| Coordinators.FlGstSession.InstallMapping | gst/framelink_session_context.cpp:95-104 | a usable mapping is installed once and accepted again only unchanged |
| Coordinators.FlGstSession.MapTime | gst/framelink_session_context.cpp:105-112 | maps under the installed mapping of the current generation only |
| Coordinators.FlGstSession.MapRunningTime | gst/framelink_session_context.cpp:143-150 | the same, passing times through while unmapped unless a mapping is mandatory |
| Coordinators.FlGstSession.OfferAudio | gst/framelink_session_context.cpp:123-129 | one stream per generation, for exactly the current configuration |
| Coordinators.FlGstSession.TakeAudio | gst/framelink_session_context.cpp:130-135 | the published stream, to the right role, once |
| Coordinators.FlGstSession.EndVideo | gst/framelink_session_context.cpp:151-159 | consistent terminal accounting is recorded once and repeated only unchanged |
| Coordinators.FlGstSession.PollVideoEnd | gst/framelink_session_context.cpp:160-169 | one look of the wait for that accounting |
| WireBounder.FeedStaysBounded | gst/gstframelinkaudiosrc.cpp:18-32 | over any stream fewer than 62 header bytes are kept and the remaining payload never exceeds the larger of the budget and 65536 |
| WireBounder.FeedConcat | gst/gstframelinkaudiosrc.cpp:18-32 | feeding a concatenation is feeding its parts in order |
| WireBounder.AnyChunking | gst/gstframelinkaudiosrc.cpp:18-32 | any cutting of a stream gives the verdict and parser of the whole stream |
| WireBounder.TwoSplits | gst/gstframelinkaudiosrc.cpp:18-32 | two cuttings of one stream never differ |
| WireBounder.AcceptsFramed | gst/gstframelinkaudiosrc.cpp:22-30 | a stream is accepted if and only if it is a sequence of good headers each followed by its payload, possibly cut short |
| WireBounder.HeaderRead | gst/gstframelinkaudiosrc.cpp:22-30 | of a header written most significant byte first the bounder reads the very type and length, and accepts it exactly within the limits of its type |
| WireBounder.PacketsPass | gst/gstframelinkaudiosrc.cpp:18-32 | a stream of packets passes, however it is cut, if and only if each of them is acceptable |
| WireBounder.AudioReader.Bound | gst/gstframelinkaudiosrc.cpp:18-32 | the chunked loop terminates and ends in the state of feeding every byte; false exactly on rejection |
| WireBounder.AudioReader.Advance | gst/gstframelinkaudiosrc.cpp:22-30 | one turn consumes a nonempty piece or rejects |
| WireBounder.AudioReader.Fill | gst/gstframelinkaudiosrc.cpp:24-29 | fills the header array in place and judges it when complete |
| VideoEvents.StepKeepsFrames | gst/gstframelink.cpp:1327-1378 | every step keeps: frames pushed, in hand, in the mailbox and on the wire are consecutive frames of the sink, or one is marked lost for good |
| VideoEvents.LosslessOrError | gst/gstframelink.cpp:1327-1377 | a source that returns EOS has pushed every frame the sink submitted, once each and in order, and none was ever replaced or expired |
| VideoEvents.ReplacementNeverEnds | src/framelink_linux.cpp:387-407 | once a frame was replaced or expired no continuation ends in EOS |
| VideoEvents.OrderPreserved | gst/gstframelink.cpp:1280-1294 | with distinct barrier times, in every run, failed ones included, what left the source is a prefix of the sink's GAPs and frames in their order, all of them at EOS, whatever barriers of dropped frames were queued and wherever a GAP was refused |
| VideoEvents.OrderForDistinctTimes | gst/gstframelink.cpp:508-516 | the same for every run whose rendered buffers have pairwise different running times |
| VideoOrder.OrderExactlyForDistinctTimes | gst/gstframelink.cpp:508-516 | every run over buffers of given running times keeps the order of GAPs and frames, completely at EOS, if and only if the times are pairwise different |
| VideoOrder.EqualTimesMaySwap | gst/gstframelink.cpp:1285-1287 | for any times with a repeat and any GAP, a run over buffers of exactly these times in which a frame leaves before the GAP that precedes it |
| VideoOrder.TwinsSwap | gst/gstframelink.cpp:1285-1287 | the shortest instance, two buffers at time 7 |
| VideoLiveness.FinishesExactly | gst/gstframelink.cpp:1280-1377 | from every state of a running source reached with distinct running times, source steps alone can reach EOS if and only if nothing was lost, the sink has ended and never more than 32 GAPs in a row await one frame; then exactly the sink's GAPs and frames have left, in order |
| VideoLiveness.EveryStreamFinishes | gst/gstframelink.cpp:1280-1377 | every finite stream of buffers with distinct running times and of GAPs within that limit has a run to EOS that pushes all of it in order |
| VideoLiveness.TooManyGaps | gst/gstframelink.cpp:1285-1285 | after any row of more than 32 GAPs and the end, with nothing lost, no run of the source reaches EOS |
| VideoEvents.NextFrame | gst/gstframelink.cpp:1373-1378 | the frame a source takes is the sink's next one, with no other frame before it |
| VideoEvents.WhichBarrier | gst/gstframelink.cpp:1286-1287 | with distinct times a barrier of the awaited time is the frame's own, any other belongs to a dropped frame |
| VideoElements.VideoSink.RenderBuffer | gst/gstframelink.cpp:508-516 | a discontinuous buffer sends its barrier before it is known whether the ring has room; only a submitted one is counted |
| VideoElements.VideoSink.SendGap | gst/gstframelink.cpp:765-770 | sends the GAP and marks the next buffer discontinuous; an empty GAP is refused |
| VideoElements.VideoSink.SendEnd | gst/gstframelink.cpp:783-784 | sends the frame count and last time |
| VideoElements.EventChannel.Enqueue | gst/fl_gst_event_channel.hpp:30-32 | performs the step ReadEvent of the machine: the record joins the queue in order, a full queue breaks the stream |
| VideoElements.EventChannel.Dequeue | gst/fl_gst_event_channel.hpp:60-66 | the oldest record, or none |
| VideoElements.EventChannel.PeekEnd | gst/fl_gst_event_channel.hpp:55-59 | the first end record if there is one, the queue unchanged |
| VideoElements.DrainedIsRun | gst/gstframelink.cpp:1280-1289 | draining the queue until the awaited event is a run of receive steps |
| VideoElements.VideoSource.AcceptFrame | gst/gstframelink.cpp:1373-1378 | a gap in the sequence numbers fails, a discontinuity waits for its barrier, anything else is delivered |
| VideoElements.VideoSource.AwaitEvents | gst/gstframelink.cpp:1280-1289 | collects GAPs and skips foreign barriers up to the awaited event, leaving later ones queued |
| VideoElements.VideoSource.Handle | gst/gstframelink.cpp:1284-1287 | one received event: collect, accept, finish, skip or fail, a GAP refused at the end included |
| VideoElements.VideoSource.EmitGaps | gst/gstframelink.cpp:1290-1294 | all collected GAPs leave in order and are forgotten; at one that cannot be mapped or pushed those before it have left and all stay collected |
| VideoElements.VideoSource.PushProbe | gst/gstframelink.cpp:1748-1748 | the GAPs, then the buffer; the buffer is dropped and the source fails exactly when a GAP is refused |
| VideoElements.VideoSource.NoteEnd | gst/gstframelink.cpp:1331-1332 | waits while frames are missing, fails on a mismatch, otherwise awaits the end record |

## Left out

- flSignalConsumedSyncFd (src/framelink_linux.cpp:829-841): manual consumed signalling is the caller's own contract, which leaves ownership to the caller and forbids mixing with leases.
- MixedReleases.MixingLosesStorage: asks for a live link and storage of the ring's own, without which nothing is resized.
- The other backends (src/framelink_win.cpp, src/framelink_android.cpp): the same protocol over other primitives.
- GBM, D3D11 and AHardwareBuffer allocation, import, mapping and copies: foreign calls; an image is an identity.
- Failures of send, reallocation, hand-over and polling, malformed ring descriptions and descriptor leaks: outside the assumptions of the ring properties.
- Frame metadata: its validation, its copying through the relay and its gates in submit and forward (samples/native_relay.h:22-26, 62-64) decide nothing about ownership.
- ProducerChannels.ProducerChannel.BeginSubmit: does not model the gate that refuses a frame whose required metadata is unset.
- ProducerChannels.ProducerChannel.ImportRing: does not model the validation of a malformed description, which ends the attachment.
- NativeRelays.NativeRelay.Forward: does not model the metadata gates, and is proved without interference inside one call; interleaving with both peers at every channel operation is what `Relays.TwoHopSafety` covers.
- NativeRelays.NativeRelay.Initialize: does not model the metadata flag and the format and geometry comparison of the two channels, which only refuse more.
- Relays.TwoHopSafety: the downstream ring is neither resized nor re-attached while a relay uses it, and nobody else completes the relay's tokens; a changed generation poisons the relay in `Collect`.
- The relay's branches for an out-of-range slot and for a failed upstream collect cannot occur in the model, and `Relays.OwnChecksNeverFire` says why for the others.
- ProducerChannels.ProducerChannel.AcquireBuffer: one round; repeating it until a deadline adds sleeps and no state.
- ProducerChannels.ProducerChannel.RequestGeometry: what arrives while the call blocks is a parameter, and a closed link ends the wait.
- Coordinators.FlGstSession.PollReady: one look at the state; waiting and deadlines are repetitions of it.
- HMAC, nonces, rendezvous files and credentials: a proof stands for the transcript it covers, over an honest channel.
- MemoryCodec.MutualAgreement: the authenticated approval byte is the peer's verdict, delivered faithfully.
- AudioTimelines.AudioTimeline.Track: what the observer does is a flag of the block; the arrival and lateness statistics are left out.
- AudioSinks.NeverAccumulates: a refused wait for the other tracks ends the stream, so the answer is taken as granted there; `Inspect` models it.
- AudioSinks.AudioSink.Inspect: leaves out caps and segment events and the start-up wait, which only refuse.
- VideoEvents.OrderPreserved: speaks of times before the clock mapping, which shifts them all alike (`Coordinators.MappedTimesKeepDistance`), and leaves out flush, which ends a session.
- VideoElements.EventChannel.Enqueue: leaves out the 64-byte layout of a record and its serial check (gst/fl_gst_event_channel.hpp:27-31, 45-51): the event stream is a FIFO of records.
- GStreamer element plumbing, caps, properties, state changes and startup threads; tracing, logging, samples with I/O and the tools.
- flOpenProducerSlot, flQuery and the validators on their own: single branches.
