# XDNA NPU emulator: mailbox, firmware and boot, verified in Dafny

The project models the device side of the XDNA1 NPU mailbox, the management
firmware (MERT) behind it, and the PSP, SMU and reset logic that brings it up,
together with the driver code that talks to them. The two sides meet in rings in
SRAM: the driver writes requests and reads replies, the device reads requests
and writes replies, and each must undo what the other does.

## How it is organised

- **Values.** `Regs`, `Ring`, `NpuState`, `Mailbox`, `Mert`, `Consumer`,
  `Device`, `DriverModel` and `LockstepModel` give the behaviour as functions on
  an immutable `State`. All theorems about runs are about these.
- **Objects.** The class `Npu` in `NpuDevice` and the class `Driver` in
  `DriverDevice` do the same in place, with the loops, byte offsets and SRAM
  writes of the C code. Every method is proved to turn the view of the old state
  into what the function says; so the theorems hold of the objects.
- **Theorems.** `RingFifo`, `RingOffers` and `RingRuns` (rings as queues),
  `Traffic`, `Bounds`, `BatchDrain`, `OwnDestroy` (consumer and producer), `Invariant`, `Ledger`
  (whole-device invariant and conservation), `Footprint`, `Isolation` (who writes
  which SRAM word), `Pool`, `ContextPool`, `DmaTiling`, `BootSpec`, `BootTrace`,
  `Commands`, `Interference`, `Discovery`, `Lockstep`, `Pipeline`,
  `Conversations`, `Sessions` and `Restart` (driver and device end to end),
  `Reach` and `Witnesses` (states reached from reset).

`State` carries a log of what an observer sees: messages dispatched, replies
sent or refused, interrupts, DMA calls, creations, resets. The host's DMA
callbacks are a function of that whole log, so a theorem for all hosts covers
hosts whose answers change over time. SRAM is an array of 32-bit words, and
`Bytes` reads and writes it at any byte offset; ring positions in `Ring` are word
positions, and the registers hold byte offsets.

## What was found

- *The rings are FIFO queues, with one exception.* The full test at
  src/xdna_mailbox.c:211 is taken only while tail < head. If the head register
  is still 0 and the next frame does not fit behind the tail, the writer wraps
  onto unread frames and they are lost; the comment at line 196 says the driver
  computes the same way, and the driver's writer in tests/test_boot.c:298-308
  does. `RingFifo.PutIsFifoIff`, `Bounds.SendIsFifoIff`,
  `BatchDrain.BatchRepliesIff` and, for whole runs of a driver that pipelines,
  `Pipeline.FreshChannelIsFifoIff` give the exact condition;
  `Witnesses.RepliesOverrun` is a run from reset that loses 146 replies. A driver
  that works in lockstep never meets it (`Lockstep.EveryCallAnswered`).
- *A refused answer is lost, its effect is not.* MERT ignores the result of the
  send (src/xdna_mert.c:203-207, `Traffic.EffectStands`), so a create request
  whose reply finds the ring full leaves a context the driver does not know of.
  `RingOffers.AcceptedWhileRoom` and `RingOffers.AlwaysRoomIff` give the exact
  room that rules this out, and `Pipeline.PatientIsAnswered` the driver that
  keeps to it.
- *One kick may leave requests in a context ring.* The guard of 256 iterations
  cannot trip on the management ring (`BatchDrain.MgmtTailWriteDrains`), but an
  8 KiB context ring holds more small frames than that; `BatchDrain.TailWriteDrains`
  says exactly when the ring is drained, and `Witnesses.BatchOutlastsGuard` is a
  run from reset in which it is not.
- *Context ids are new until they wrap.* `ContextPool.CreateIdFreshIff` gives the
  exact number of creations, and `Witnesses.IdsWrap` reaches the wrap.
- *A restart does not tell the driver.* Boot puts all ring positions at 0 and
  clears the rings; the test driver keeps its own copies over RELEASE_TMR and a
  second start. `Restart.RestartedExchangeIff` says exactly when its next
  exchange works: the request must land at word 0 (its position is 0, or the
  frame does not fit behind it and wraps), and the reply must be read from word 0
  (or from a word that is a tombstone by value). tests/test_boot.c:683-698 sends
  nothing before the release, so both positions are 0 there;
  `Witnesses.RestartMissed` is the run with one exchange more, in which the next
  request is never dispatched.
- *A start without a release keeps contexts.* After a second VALIDATE, START is
  accepted again and resets the management channel only; sessions on context
  channels go on (`Restart.WarmStart`), and `Restart.RestartedExchangeIff` applies
  to the management driver.
- *RUNNING is not the same as alive.* VALIDATE is accepted while the firmware
  runs and moves the PSP back to VALIDATED (`Witnesses.AliveNotRunning`).
  `BootTrace.AliveIff` and `BootTrace.RunningIff` say exactly when each holds, and
  `BootTrace.AliveIsRunningIff` exactly when they coincide; COLD implies not
  alive and RUNNING implies alive.

## Model

| member | source | states |
|---|---|---|
| `RingFifo.PutAppends` | src/xdna_mailbox.c:195-228 | Writer side of the FIFO: an accepted frame goes to the back of the queue the ring holds, a refused send (even one that already wrote a tombstone) leaves the queue as it was, and an accepted one never leaves head equal to tail; for every ring size and position unless unread frames are overrun |
| `RingFifo.GetPops` | tests/test_boot.c:235-283 | Reader side: the oldest frame comes out with its contents, the rest stays queued; an empty queue is recognised; two looks are enough |
| `RingFifo.HoldsUnique` | src/xdna_mailbox.c:195-228 | The words of a ring determine the queue it holds, so the FIFO statements cannot be met by a second reading of the same memory |
| `RingFifo.PutIsFifoIff` | src/xdna_mailbox.c:195-228 | Exactly when a send keeps the FIFO discipline: unless head is 0 and the frame does not fit before the last word. This is where the full test of line 211 (taken only while tail < head) fails |
| `RingFifo.PutOverruns` | src/xdna_mailbox.c:204-215 | In that case there were unread frames, the send is accepted, and afterwards the ring holds the new frame alone |
| `RingFifo.DrainedAcceptsIff` | src/xdna_mailbox.c:195-215 | With head equal to tail a frame is accepted at every ring position exactly if two such frames fit in the usable part |
| `RingRuns.StepRefines` | tests/test_boot.c:226-334 | One send or receive refines one step of the abstract queue, given that it does not overrun |
| `RingRuns.RunIsFifoIff` | tests/test_boot.c:226-334 | A run of sends and receives, in any order and through any number of wraps, is FIFO at every step exactly if none of its sends overruns |
| `RingRuns.SafeAfterReceive` | tests/test_boot.c:252-283 | Once something has been received the head is never 0 again, so no later send can overrun |
| `RingRuns.BurstSafeIff` | src/xdna_mailbox.c:204-215 | While nothing has been received, no send overruns exactly if everything sent so far fits before the last word |
| `RingRuns.FreshRingIsFifoIff` | tests/test_boot.c:226-334 | From an empty ring, an arbitrary interleaving of sends and receives is FIFO exactly if the words sent before the first successful receive fit in the usable part of the ring: the condition in terms of the calls alone |
| `RingOffers.OfferAppends` | src/xdna_mailbox.c:195-228 | An offered frame, of any size, goes to the back of the queue if it is accepted and leaves the queue alone if not, unless it overruns |
| `RingOffers.OfferAllFromZero` | src/xdna_mailbox.c:195-228 | While the head is 0, offering any frames in a row extends the queue by all of them exactly if they fit behind the tail |
| `RingOffers.OfferAllKeepsFifo` | src/xdna_mailbox.c:195-228 | Once the head has moved, the queue gains exactly the accepted frames, in order, through any number of wraps |
| `RingOffers.AcceptedWhileRoom` | src/xdna_mailbox.c:195-215 | With frames of at most m words, a frame is neither refused nor overruns while the unread words and 2m fit in the usable part, at every position and after any number of wraps |
| `RingOffers.AlwaysRoomIff` | src/xdna_mailbox.c:195-215 | The bound is exact: for a given queue and frame, no ring of that size refuses or is overrun exactly if the unread words and twice the frame fit |
| `RingOffers.OfferKeepsTight` | src/xdna_mailbox.c:204-228 | What the bound needs of a wrapped ring, that the tombstone lies within m words of the end, is kept by every send |
| `RingOffers.GetKeepsTight` | tests/test_boot.c:235-283 | and by every receive |
| `Pipeline.AskStep` | tests/test_boot.c:293-328 | A submission by a driver that agrees with the device on the positions is accepted, dispatched once, and its answer offered to the reply ring, whatever replies are still waiting |
| `Pipeline.FreshChannelIsFifoIff` | tests/test_boot.c:226-334 | On a freshly opened channel, any interleaving of submissions and collections, over real device and driver steps, is a FIFO queue of replies exactly if the answers asked for before the first collection that finds something fit in the reply ring: a condition on the calls alone |
| `Pipeline.FifoFromZeroIff` | tests/test_boot.c:226-334 | The same from any state in which the head register is still 0 |
| `Pipeline.FifoOnceMoved` | tests/test_boot.c:226-334 | Once the driver's head has moved, every interleaving is FIFO |
| `Pipeline.AskOverruns` | src/xdna_mailbox.c:204-215 | The submission that breaks it: its answer is accepted and is then all the reply ring holds |
| `Pipeline.PatientIsAnswered` | tests/test_boot.c:226-334 | A pipelining driver that asks only while its uncollected answers leave room for two of the longest (977 words on the management ring) gets every answer that is due, in order, none refused or lost, in every interleaving |
| `Pipeline.PatientFromStep` | tests/test_boot.c:226-334 | The same from any state in which driver and device are in step |
| `Bounds.SendIsFifoIff` | src/xdna_mailbox.c:180-237 | The same equivalence for the whole send on a device channel, in terms of the byte registers |
| `Bounds.SendLeavesData` | src/xdna_mailbox.c:195-228 | A successful send never leaves head equal to tail |
| `Traffic.SendPuts` | src/xdna_mailbox.c:180-237 | A device send on an open channel, of any frame, is exactly the ring writer applied to that channel's reply ring in SRAM, and leaves the driver's head alone |
| `Traffic.HandleOffers` | src/xdna_mert.c:203-207 | Handling a message that is due an answer offers exactly that answer, with the earned status, to the reply ring of the channel it came in on |
| `Traffic.EffectStands` | src/xdna_mert.c:203-207 | Since the result of the send is ignored, what a message did to contexts, ids and configuration stands even if its answer is refused |
| `Traffic.EffectSpares` | src/xdna_mert.c:433-681 | A message's effect leaves every open channel, its rings and its owner alone, unless it is a destroy request whose id resolves to that channel's own slot |
| `Traffic.EffectClosesIff` | src/xdna_mert.c:399-427 | An open channel is closed by a message exactly if that is a destroy request whose id resolves to the channel's own slot |
| `Mailbox.LookInside` | src/xdna_mailbox.c:140-168 | For arbitrary ring contents, and although 16 + peek is a 32-bit sum that can wrap, an accepted message lies wholly inside the ring and is what the ring holds there |
| `Mailbox.LookFindsFrame` | src/xdna_mailbox.c:133-168 | Conversely a well-formed frame with a payload is recognised as that message |
| `Mailbox.SendFields` | src/xdna_mailbox.c:180-237 | What a send may change: ring memory, that channel's tail and interrupt status, two counters; one reply record and, if the host has the callback, one interrupt on that vector |
| `Consumer.PeekInside` | src/xdna_mailbox.c:129-168 | A message found at a channel's head is on an active channel and inside its request ring |
| `Bounds.KickBounded` | src/xdna_mailbox.c:125-172 | For arbitrary ring contents and tail values, one consume loop of n iterations dispatches at most n messages, each wholly inside its ring at an aligned position, and leaves the head aligned and at most the ring size, even if a handler resets the channel being drained |
| `Bounds.ReachableBounds` | src/xdna_mailbox.c:195-228 | In every state reachable from reset: reply tails are aligned and at most size - 4, request heads aligned and at most size, channels are open exactly for live firmware and valid slots, and the context counter is exact |
| `Bounds.MessageMeansAlive` | src/xdna_mert.c:436-440 | A message can be found only on an open channel of live firmware, so MERT's not-alive branch is unreachable from the mailbox |
| `BatchDrain.DrainBatch` | src/xdna_mailbox.c:125-173 | The consume loop with a given iteration budget dispatches exactly the frames its iterations reach (passing the tombstone takes one), in FIFO order, and offers their answers to the reply ring in that order; the rest stays queued; it is the whole batch exactly if frames plus tombstone fit the budget |
| `BatchDrain.ReachedAllIff` | src/xdna_mailbox.c:125-173 | The number of frames reached is the whole batch exactly if frames and tombstone fit the iterations |
| `BatchDrain.BatchRepliesIff` | src/xdna_mailbox.c:125-236 | What a batch leaves in the reply ring: while the driver's head is 0, what was waiting and all answers exactly if their lengths fit behind the tail; once the head has moved, what was waiting and the accepted answers |
| `BatchDrain.OwnDestroyStops` | src/xdna_mert.c:399-427 | A destroy request for the context behind its own channel closes the channel, its answer is refused, the loop stops, and no memory changes |
| `OwnDestroy.DrainAnyBatch` | src/xdna_mailbox.c:125-173 | Any batch of frames with payloads, on any channel: if frame k is the first to name the channel's own context and the iterations reach it, exactly k + 1 frames are dispatched, the first k answered, the channel closed and the last answer refused; otherwise exactly the frames reached are dispatched and answered |
| `OwnDestroy.OwnResolves` | src/xdna_mert.c:303-313 | While ids have not wrapped, a destroy request that names the channel's own context resolves to its slot |
| `BatchDrain.TailWriteDrains` | src/xdna_mailbox.c:82-85 | The same for one tail write: everything is dispatched in order and head meets tail exactly if batch and tombstone take at most 256 looks |
| `BatchDrain.MgmtTailWriteDrains` | src/xdna_mailbox.c:82-85 | On the management ring a tail write always dispatches and answers the whole batch, wrapped or not, and head meets tail |
| `BatchDrain.MgmtBatchFits` | include/xdna/xdna_regs.h:141-148 | A well-formed batch on the 4 KiB management ring has at most 204 frames, so the guard of 256 cannot trip there |
| `BatchDrain.ChainBound` | src/xdna_mailbox.c:125-173 | Frames with a payload take at least five words each, so free space bounds the number of queued frames, wrapped or not |
| `Mert.ReplyIsExact` | src/xdna_mert.c:433-681 | Every message yields exactly one reply of its opcode's size, with the status an independent table says the request earns, at the table's status offset, on every success and error path; only an accepted async registration yields none |
| `Mert.StatusReply` | src/xdna_mert.c:258-271 | A status-only reply still has the opcode's full size and carries the status at the opcode's offset |
| `Mert.FirstFree` | src/xdna_mert.c:328-333 | The lowest free slot, or the table size if none is free |
| `Mert.FindContext` | src/xdna_mert.c:303-313 | The lowest valid slot with this id, or the table size if no valid slot has it |
| `Mert.ConfigRoundTrip` | src/xdna_mert.c:483-519 | A value set in the runtime configuration is read back, and other entries are unaffected |
| `Mert.PoolSpares` | src/xdna_mert.c:399-427 | Destroying a context or mapping a buffer touches neither SRAM nor the record of replies |
| `DmaTiling.FillChunks` | src/xdna_mert.c:618-636 | The zero-fill calls are consecutive chunks of 256 bytes (the last the remainder), all successful but perhaps the last |
| `DmaTiling.FillTiles` | src/xdna_mert.c:618-636 | With no 64-bit wrap the successful writes are disjoint, at most 256 bytes, and cover exactly [addr, addr + done); done is short exactly if the last call failed |
| `DmaTiling.QueryReportsTiling` | src/xdna_mert.c:604-643 | The reply says success exactly if every chunk was written, then with the full size; in all cases the reported size is exactly the covered prefix |
| `Ledger.PairedIsConserved` | src/xdna_mailbox.c:169-236 | In every record in which each dispatched message is followed by one answer: messages = replies sent + replies refused + async registrations |
| `Ledger.IssuedIff` | src/xdna_mert.c:365 | The ids handed out since reset are exactly 1, 2, ... modulo 2^32 |
| `Ledger.NextIdFreshIff` | src/xdna_mert.c:365 | The next id is non-zero and unused exactly while fewer than 2^32 - 1 contexts were created since reset |
| `Ledger.FillQuiet` | src/xdna_mert.c:618-636 | Host DMA in the middle of a message neither counts nor answers a message |
| `Invariant.StepKeeps` | src/xdna_device.c:227-252 | Every register write, SRAM write, PSP or SMU command and reset keeps the whole-device invariant: channel 0 open iff firmware alive, channel i+1 open iff slot i valid, contexts only under live firmware, COLD implies not alive, RUNNING implies alive, exact context count, counters equal to the record, one answer per message |
| `Invariant.RunKeeps` | src/xdna_device.c:227-252 | The invariant over runs of any length |
| `Invariant.RunConserves` | src/xdna_mailbox.c:169-236 | From reset, in every reachable state: messages in = messages out + refused sends + async registrations, and interrupts raised = messages out when the callback exists, otherwise 0 |
| `Invariant.ResetSound` | src/xdna_device.c:75-100 | Reset establishes the invariant whatever was observed before |
| `Invariant.HandleKeeps` | src/xdna_mert.c:433-681 | Handling a message settles the one answer it owes, on its own channel, under its own id and opcode, and keeps the invariant |
| `Invariant.EffectKeeps` | src/xdna_mert.c:433-681 | A message's effect keeps the invariant while its answer is still owed |
| `Invariant.SendKeeps` | src/xdna_mailbox.c:180-237 | A send attempt with the owed answer settles it, be it accepted or refused |
| `Invariant.OpenKeeps` | src/xdna_mert.c:350-372 | Opening a free slot keeps the invariant in the middle of a message |
| `Invariant.CloseKeeps` | src/xdna_mert.c:420-424 | Closing a slot keeps it, also when it is the slot of the channel being drained |
| `Invariant.TakenKeeps` | src/xdna_mailbox.c:163-171 | Taking a message off a ring leaves exactly that message owed an answer |
| `Invariant.DrainKeeps` | src/xdna_mailbox.c:125-173 | The consume loop keeps the invariant for arbitrary ring contents and every number of iterations |
| `Invariant.MboxWriteKeeps` | src/xdna_mailbox.c:76-104 | Every mailbox register write keeps it |
| `Invariant.PspKickKeeps` | src/xdna_psp.c:55-114 | Every PSP command keeps it, known or not, granted or not |
| `Invariant.SmuKickKeeps` | src/xdna_smu.c:24-75 | Every SMU command keeps it |
| `Isolation.RegionsDisjoint` | include/xdna/xdna_regs.h:141-148 | The fourteen rings, the management info block and the FW_ALIVE word are pairwise disjoint and inside SRAM |
| `Isolation.MailboxRunIsolated` | src/xdna_mailbox.c:207-228 | Over whole runs of mailbox writes: the info block, FW_ALIVE and the management request ring never change; a channel's rings change only by creation in its slot, its reply ring also by replies on that channel |
| `Isolation.MboxRunConfined` | src/xdna_mailbox.c:207-228 | Over whole runs of mailbox writes every SRAM word that changed lies in the reply ring of a recorded reply or the ring pair of a recorded creation |
| `Isolation.SendConfined` | src/xdna_mailbox.c:217-221 | A send writes inside its own channel's reply ring |
| `Isolation.EffectConfined` | src/xdna_mert.c:350-361 | A message's effect writes SRAM only by clearing the ring pair of the slot it opens |
| `ContextPool.CreateTakesLowestFree` | src/xdna_mert.c:315-397 | Creation succeeds exactly for a long enough request with 1..5 columns while a slot is free; it takes the lowest free slot, with the next id and both rings zeroed and empty, and leaves all others alone; on refusal nothing changes |
| `ContextPool.DestroyFreesSlot` | src/xdna_mert.c:399-427 | Destruction succeeds exactly if the id resolves; one slot that held it is freed, its channel closed, nothing else changes; on refusal nothing changes |
| `ContextPool.IdsDistinct` | src/xdna_mert.c:363-372 | In every run from reset with fewer than 2^32 creations valid contexts have distinct non-zero ids and distinct channels |
| `ContextPool.DestroyedNeverResolves` | src/xdna_mert.c:399-427 | Once a destroy request for a live context is handled, its id never resolves again, in the rest of that kick or any later run without reset |
| `ContextPool.DeadIdStaysDead` | src/xdna_mert.c:303-313 | An id that was handed out and no longer resolves, for instance wiped by a firmware shutdown, never resolves again before reset |
| `ContextPool.CreateIdFreshIff` | src/xdna_mert.c:365 | In every reachable state the id a creation would hand out is non-zero and new exactly while fewer than 2^32 - 1 contexts were created |
| `ContextPool.RunPool` | src/xdna_mert.c:315-427 | Over runs without reset a valid slot either still holds its context or one created meanwhile with a later id |
| `BootTrace.AliveIff` | src/xdna_psp.c:68-105 | In every trace from reset the firmware is alive after n events exactly if a VALIDATE with a successful image read of 1..2^24-1 bytes was followed by an accepted START, with no RELEASE_TMR or reset since that VALIDATE |
| `BootTrace.NotColdIff` | src/xdna_psp.c:68-105 | The PSP is out of COLD exactly since a successful VALIDATE with no release or reset after it |
| `BootTrace.RunningIff` | src/xdna_psp.c:68-105 | The PSP is RUNNING exactly since an accepted START with no RELEASE_TMR, reset or successful VALIDATE after it |
| `BootTrace.AliveIsRunningIff` | src/xdna_psp.c:68-105 | Alive and RUNNING coincide exactly unless a VALIDATE succeeded while the firmware was alive, with neither a release nor an accepted START since; RUNNING always implies alive |
| `BootTrace.StepRuns` | src/xdna_psp.c:68-105 | How any event at all moves the RUNNING state |
| `BootTrace.StepBoots` | src/xdna_psp.c:68-105 | How any event at all moves liveness and the COLD state |
| `BootTrace.RekickIsInert` | src/xdna_psp.c:29-33 | Because CMD aliases STATUS, until the command register is rewritten no sequence of kicks and other traffic changes PSP or firmware state |
| `BootTrace.UnknownCommandInert` | src/xdna_psp.c:106-109 | A kick with READY in the command register answers BAD_STATE and touches two registers and a counter |
| `BootTrace.KickLeavesReady` | src/xdna_psp.c:29-33 | Every kick and every reset leaves READY in the command register |
| `BootTrace.DrainSameCore` | src/xdna_mailbox.c:110-174 | No mailbox message, whatever it contains, touches registers, PSP state, liveness or clocks |
| `Commands.PspAnswers` | src/xdna_psp.c:35-114 | A PSP command sequence answers 0 exactly if granted (image of non-zero 24-bit size readable at the 64-bit address, START after VALIDATE, or RELEASE_TMR); otherwise PSP, firmware, channels, memory and contexts are as before |
| `Commands.ImageAcceptedIff` | src/xdna_psp.c:35-78 | The VALIDATE step of a bring-up is accepted exactly if the 24-bit size is not 0 and the host can read the first bytes at the 64-bit address; this is the condition under which the sessions start |
| `Commands.SmuAnswers` | src/xdna_smu.c:24-75 | An SMU command sequence always answers, OK exactly for a known command whose DPM level is at most 7, and changes only the setting it names |
| `Commands.ConcurrentCommands` | tests/test_boot.c:159-215 | However the writes of one PSP and one SMU sequence are interleaved, the device ends as if they had run one after the other in either order, and each side reads the response it would have got alone |
| `Interference.InterleavingIrrelevant` | src/xdna_device.c:147-191 | For sequences of any length: two interleavings of the same PSP-side and SMU-side register writes end in the same state, and every register reads as if its side had run alone |
| `Interference.WritesProject` | src/xdna_device.c:147-191 | The final state is the two sequences' own final states put together |
| `Interference.SmuWriteLocal` | src/xdna_smu.c:18-75 | A write to an SMU register reads and changes the SMU's part of the state only |
| `Interference.OtherWriteLocal` | src/xdna_psp.c:29-114 | Any other register write, PSP commands included, neither reads nor changes that part |
| `Discovery.BootIsDiscovered` | src/xdna_fw.c:37-58 | After every boot, following FW_ALIVE leads the driver to exactly the management channel |
| `Discovery.CreateIsDiscovered` | src/xdna_mert.c:374-390 | A successful create reply describes exactly the channel of the slot that was taken, and carries that context's id |
| `Discovery.BelongingReads` | src/xdna_mailbox.c:41-74 | Through the register decoder the discovered offsets read that channel's four positions and its interrupt status, which sits at i2x head + 4 |
| `Discovery.BelongingRings` | include/xdna/xdna_regs.h:141-148 | The discovered ring blocks are that channel's own rings |
| `Discovery.BelongingKicks` | src/xdna_mailbox.c:76-104 | Writing the discovered tail register processes that channel, and all replies and interrupts it causes are on the advertised vector |
| `Discovery.PspExecKicks` | tests/test_boot.c:159-191 | The six register writes of a PSP command are one kick on the new arguments |
| `Discovery.RestartLikeFirstBoot` | src/xdna_psp.c:68-105 | After any history, RELEASE_TMR, VALIDATE and START give the same channel table, info block, FW_ALIVE word and zeroed management rings as a first boot, and no valid context |
| `Discovery.ReleaseCloses` | src/xdna_fw.c:70-87 | RELEASE_TMR closes every channel and invalidates every context |
| `Lockstep.ExchangeWorks` | tests/test_boot.c:226-334 | One send-then-receive in step, on any channel: the request is accepted and dispatched, exactly one reply of the opcode's size with the earned status comes back, and driver and device agree again on empty rings |
| `Lockstep.EveryCallAnswered` | tests/test_boot.c:619-638 | The wrap test generalised: for every sequence of requests, each gets exactly one reply in order with its own id, opcode and size; neither ring reports full or loses sync; both are empty at the end |
| `Lockstep.EveryReplyEarned` | tests/test_boot.c:226-334 | The i-th reply of a session is the one its exchange gets in the state the first i exchanges left, so it carries the status that call earned there |
| `Lockstep.HandleReplies` | src/xdna_mailbox.c:195-228 | On a drained reply ring no MERT reply is ever refused, and the ring then holds that reply alone |
| `Lockstep.PutOnEmpty` | src/xdna_mailbox.c:195-228 | A frame of at most half the usable ring is accepted on an empty ring wherever the positions are |
| `Lockstep.SubmitQueues` | tests/test_boot.c:293-328 | The driver's writer puts the request alone into the request ring and the tail write starts the consume loop |
| `Lockstep.DrainOne` | src/xdna_mailbox.c:125-172 | On one queued request the consume loop rewinds at most once, dispatches exactly that request and stops |
| `Lockstep.CollectTakes` | tests/test_boot.c:226-285 | The driver's reader takes exactly the waiting reply and brings both sides back in step |
| `Lockstep.OpenedInStep` | src/xdna_fw.c:26-33 | A channel that was just opened is in step with a driver whose positions start at 0 |
| `Conversations.ExchangeIsCall` | tests/test_boot.c:287-334 | An exchange is a remote call: its reply is MERT's answer in a state that differs from the caller's only in that channel, counters and record, and it leaves behind exactly that message's effect |
| `Conversations.SetThenGet` | src/xdna_mert.c:483-519 | A value set by one exchange is what a later exchange on any channel reads back |
| `Conversations.CreateThenInStep` | src/xdna_mert.c:374-396 | After a successful create exchange on any channel the reply leads the driver to a channel that was closed, belongs to the new context and is in step for a session |
| `Conversations.OthersStayInStepIff` | src/xdna_mailbox.c:110-237 | An exchange on one channel leaves the session on another channel in step exactly unless it is a destroy request whose id resolves to that channel's own slot |
| `Conversations.TurnKeepsStep` | src/xdna_mert.c:315-427 | One call on any open channel, with what the drivers note of its reply (a create reply opens a session, a destroy reply ends one), leaves every open session in step |
| `Conversations.EndedIsClosed` | src/xdna_mert.c:399-427 | While ids have not wrapped, the session that is ended is the one whose channel the device closed |
| `Conversations.EveryChannelAnswered` | tests/test_boot.c:287-334 | Runs of calls on any number of channels, interleaved in any way, in which sessions begin with a create reply and end with a destroy reply: each call gets exactly one reply, the one its exchange gets in the state the calls before it left, under its own driver's id and of the opcode's size; all open sessions are in step at the end |
| `Conversations.OwnNumbering` | tests/test_boot.c:310 | While a session lasts, its driver numbers its own calls one by one, whatever the others do |
| `Sessions.BringUpInStep` | tests/test_boot.c:437-457 | Bringing up a closed device ends with the management channel discovered and in step |
| `Sessions.ReleaseThenBringUp` | tests/test_boot.c:683-698 | The same after releasing a device with any history |
| `Sessions.SessionInFull` | tests/test_boot.c:226-334 | A session of any length: each request is answered once, under its own id, with its opcode's size and the status it earned in its turn |
| `Sessions.ResetToSession` | tests/test_boot.c:437-457 | The same from cold reset, once the image is accepted |
| `Restart.RestartIsFresh` | src/xdna_psp.c:68-105 | After any history, RELEASE_TMR, VALIDATE and START leave the management channel newly opened on cleared rings |
| `Restart.BringUpIsFresh` | src/xdna_fw.c:19-68 | VALIDATE and START leave the management channel newly opened on cleared rings, whether the device was closed or running |
| `Restart.WarmStart` | src/xdna_psp.c:68-97 | VALIDATE and START without a release: the management channel is opened anew, while every context survives with its channel, rings and registers as they were |
| `Restart.WarmStartKeepsSessions` | src/xdna_psp.c:68-97 | So a session on a context channel goes on across it, with the replies that were waiting there |
| `Restart.MissedRequest` | src/xdna_mailbox.c:140-150 | A request written at a position other than word 0 is not seen after a restart: the device finds a zero word there, dispatches nothing and stays stuck |
| `Restart.LandedRequest` | src/xdna_mailbox.c:125-172 | A request that lands at word 0, directly or by wrapping, is dispatched, and its reply is all the reply ring then holds |
| `Restart.StaleGet` | tests/test_boot.c:235-283 | A reader that looks at word k of a ring holding one reply takes it for an answer exactly if k is 0 or that word is a tombstone |
| `Restart.TombstoneIff` | src/xdna_mert.c:433-681 | Exactly which replies have a tombstone at which word: only values the caller had echoed |
| `Restart.RepliesDoNotEcho` | src/xdna_mert.c:433-681 | No reply payload contains what would read as another reply to the same request |
| `Restart.RestartedExchangeIff` | tests/test_boot.c:683-698 | The first send-then-receive after a restart by a driver that kept its ring positions: dispatched exactly if its request position is 0 or the frame does not fit behind it; answered exactly if, besides, its reply position is 0 or a tombstone in the reply; then the answer is right and both sides are in step |
| `Reach.ReachExchange` | tests/test_boot.c:287-334 | An exchange is made of register and memory writes, so it leads from reachable states to reachable states |
| `Reach.ReachTalk` | tests/test_boot.c:287-334 | So does a session of any length |
| `Reach.ReachSound` | src/xdna_device.c:227-252 | Every reachable state satisfies the whole-device invariant |
| `Witnesses.AliveNotRunning` | src/xdna_psp.c:68-78 | A state reachable from reset in which the firmware is alive and the PSP is VALIDATED |
| `Witnesses.WillingHost` | src/xdna_psp.c:35-53 | Every host that lets the driver's image be read meets the premises of these examples |
| `Witnesses.RestartMissed` | tests/test_boot.c:683-698 | One request answered, then a restart: the driver that was in step sends the request again and it is never dispatched |
| `Witnesses.RepliesOverrun` | src/xdna_mailbox.c:204-215 | From a fresh boot, a batch of 147 version requests is dispatched and answered in full, and the last reply destroys the 146 unread ones |
| `Witnesses.BatchOutlastsGuard` | src/xdna_mailbox.c:125-132 | On a context channel reached from reset, a batch of 257 requests leaves one queued after its tail write: exactly 256 are dispatched |
| `Witnesses.CreationsReachable` | src/xdna_mert.c:315-427 | For every n a state is reachable from reset in which n contexts have been created and none is left |
| `Witnesses.IdsWrap` | src/xdna_mert.c:365 | So a state is reachable in which the next context id is 0, and one in which it is 1 although 1 was handed out |
| `NpuDevice.Npu.constructor` | src/xdna_device.c:48-64 | A new device is in the reset state and sound |
| `NpuDevice.Npu.Reset` | src/xdna_device.c:75-100 | Reset clears every field in place and ends in the specified reset state, sound if it was sound |
| `NpuDevice.Npu.ChannelReset` | src/xdna_mailbox.c:23-30 | In place, the channel reset about which the lemmas speak; out-of-range indices change nothing |
| `NpuDevice.Npu.MboxReset` | src/xdna_mailbox.c:32-39 | The reset loop closes every channel |
| `NpuDevice.Npu.MboxRegRead` | src/xdna_mailbox.c:52-74 | The register decoder of BelongingReads |
| `NpuDevice.Npu.MboxRegWrite` | src/xdna_mailbox.c:76-104 | In place, the write decoder of MboxWriteKeeps and TailWriteDrains |
| `NpuDevice.Npu.Send` | src/xdna_mailbox.c:180-237 | Byte arithmetic, tombstone and SRAM copies in place amount to the specified send on word rings, result included |
| `NpuDevice.Npu.FindRoom` | src/xdna_mailbox.c:204-210 | The tombstone write and the wrap, in byte positions |
| `NpuDevice.Npu.WriteFrame` | src/xdna_mailbox.c:217-221 | Header and payload copies write exactly the frame's image |
| `NpuDevice.Npu.Publish` | src/xdna_mailbox.c:223-236 | Tail, interrupt status, counters and interrupt of an accepted send |
| `NpuDevice.Npu.Look` | src/xdna_mailbox.c:133-168 | The checks of the consume loop on SRAM bytes find what the specification finds |
| `NpuDevice.Npu.Process` | src/xdna_mailbox.c:110-174 | The consume loop in place, guard included, is the specified drain |
| `NpuDevice.Npu.ReplyStatus` | src/xdna_mert.c:258-271 | Builds and sends the full-size status reply |
| `NpuDevice.Npu.CtxById` | src/xdna_mert.c:303-313 | The search loop finds the lowest valid slot with the id |
| `NpuDevice.Npu.FreeSlot` | src/xdna_mert.c:328-333 | The search loop finds the lowest free slot |
| `NpuDevice.Npu.HandleCreateContext` | src/xdna_mert.c:315-397 | Creation in place, error paths in the code's order, then its one reply |
| `NpuDevice.Npu.HandleDestroyContext` | src/xdna_mert.c:399-427 | Destruction in place, then its one reply |
| `NpuDevice.Npu.HandleMapHostBuffer` | src/xdna_mert.c:556-579 | Buffer mapping in place, then its one reply |
| `NpuDevice.Npu.HandleSetRuntimeConfig` | src/xdna_mert.c:483-501 | Configuration write in place, then its one reply |
| `NpuDevice.Npu.HandleGetRuntimeConfig` | src/xdna_mert.c:503-519 | Configuration read, then its one reply |
| `NpuDevice.Npu.AssignPasid` | src/xdna_mert.c:521-532 | PASID assignment in place, then its one reply |
| `NpuDevice.Npu.SetSuspended` | src/xdna_mert.c:534-542 | Suspend and resume in place, then one reply |
| `NpuDevice.Npu.RegisterAsync` | src/xdna_mert.c:581-602 | Async registration in place, with no reply when accepted |
| `NpuDevice.Npu.FillHost` | src/xdna_mert.c:618-636 | The DMA loop makes exactly the specified calls and reports the bytes done |
| `NpuDevice.Npu.HandleQueryColStatus` | src/xdna_mert.c:604-643 | The column-status dump and its one reply |
| `NpuDevice.Npu.MertHandle` | src/xdna_mert.c:433-681 | The dispatcher in place is the specified handling of a message |
| `NpuDevice.Npu.FwBoot` | src/xdna_fw.c:19-68 | Boot in place: channel, rings, info block, FW_ALIVE |
| `NpuDevice.Npu.FwShutdown` | src/xdna_fw.c:70-87 | Shutdown in place, with its loop over the contexts |
| `NpuDevice.Npu.FetchImage` | src/xdna_psp.c:35-53 | Reads at most 64 bytes of the image from the host |
| `NpuDevice.Npu.PspComplete` | src/xdna_psp.c:29-33 | Response and READY into the aliased registers |
| `NpuDevice.Npu.PspCommand` | src/xdna_psp.c:67-110 | The command switch in place |
| `NpuDevice.Npu.PspKick` | src/xdna_psp.c:55-114 | One PSP command in place, as in the trace theorems |
| `NpuDevice.Npu.SmuCommand` | src/xdna_smu.c:31-74 | The SMU switch in place |
| `NpuDevice.Npu.SmuKick` | src/xdna_smu.c:24-75 | One SMU command in place |
| `NpuDevice.Npu.RegBarRead` | src/xdna_device.c:113-145 | REG BAR reads; unknown offsets read 0 |
| `NpuDevice.Npu.RegBarWrite` | src/xdna_device.c:147-191 | REG BAR writes with their triggers, as in the trace theorems |
| `NpuDevice.Npu.MmioWriteBuf` | src/xdna_device.c:227-252 | A block write is the run of its word writes (SRAM: one block, dropped when out of range) and keeps the device sound |
| `NpuDevice.Npu.MmioReadBuf` | src/xdna_device.c:197-225 | A block read returns the SRAM words, zeros when out of range, or the registers word by word |
| `NpuDevice.Npu.MmioWriteBytes` | src/xdna_device.c:227-252 | A block of bytes of any length at any offset: SRAM takes exactly those bytes, a register BAR word by word with a short last word extended by zeros; keeps the device sound |
| `NpuDevice.Npu.MmioReadBytes` | src/xdna_device.c:197-225 | A block of bytes of any length at any offset, zeros when out of range |
| `Bytes.PutBytesAt` | src/xdna_internal.h:164-180 | A stored byte is read back, and every other byte of SRAM is as before |
| `Bytes.WholeWords` | src/xdna_internal.h:174-180 | At a word offset, storing the bytes of words is storing the words |
| `Bytes.ChunksOfWords` | src/xdna_device.c:241-251 | Cutting the bytes of words into words gives them back |
| `Device.BytesAreWords` | src/xdna_device.c:233-239 | A byte block write of whole words at a word offset is the word block write |
| `NpuDevice.Npu.SramWrite32` | src/xdna_internal.h:174-180 | One SRAM word, dropped when out of range |
| `DriverDevice.Driver.Submit` | tests/test_boot.c:293-328 | The driver's byte arithmetic and MMIO writes amount to the specified submission |
| `DriverDevice.Driver.FindRoom` | tests/test_boot.c:298-303 | The driver's tombstone and wrap, in byte positions |
| `DriverDevice.Driver.WriteRequest` | tests/test_boot.c:317-323 | Header and payload written through MMIO are exactly the frame's image |
| `DriverDevice.Driver.SkipTombstones` | tests/test_boot.c:235-261 | The driver's loop of at most 64 looks publishes each rewind and stops at a frame, at an empty ring or at the guard |
| `DriverDevice.Driver.ReadFrame` | tests/test_boot.c:263-280 | Header and payload read through MMIO are the frame at the head |
| `DriverDevice.Driver.TakeReply` | tests/test_boot.c:263-284 | Reading the frame at the head through MMIO and publishing the new head |
| `DriverDevice.Driver.Recv` | tests/test_boot.c:226-285 | The whole receive over MMIO is the specified collection |
| `DriverDevice.Driver.SendRecv` | tests/test_boot.c:287-334 | In step, the driver's send-then-receive over MMIO always returns the one reply of the specified exchange, and stays in step |
| `DriverDevice.Driver.PspExec` | tests/test_boot.c:159-191 | Refused untouched unless READY; otherwise one PSP command, successful exactly if granted |
| `DriverDevice.Driver.SmuExec` | tests/test_boot.c:195-215 | One SMU command, successful exactly if granted, with the value returned |
| `DriverDevice.Driver.GetMgmtChannel` | tests/test_boot.c:347-385 | Follows FW_ALIVE, aligned or not, finds the management channel exactly if the magic is there, and then clears the word |

## Left out

Contracts that say less than the source does, or under a condition on the driver:

- Invariant.StepKeeps: the driver's reply-ring head on an open channel must be in 0..size-4; what the device does for other heads is not modelled
- Invariant.RunKeeps: the same condition along the run
- Invariant.RunConserves: the same condition along the run
- Invariant.MboxWriteKeeps: the same condition on the value written
- NpuDevice.Npu.MboxRegWrite: the same condition on the value written
- NpuDevice.Npu.MmioWriteBuf: words, to a word offset in SRAM, and the same condition; any other block is `MmioWriteBytes`
- NpuDevice.Npu.MmioWriteBytes: the same condition on values written to reply-ring head registers
- NpuDevice.Npu.SramWrite32: word offsets, which is all its callers in the modelled code use
- NpuDevice.Npu.MmioReadBuf: words, from a word offset in SRAM; any other block is `MmioReadBytes`
- Bounds.ReachableBounds: the same condition along the run
- BatchDrain.DrainBatch: requests have a payload, and on a context channel none names the context behind it; `OwnDestroy.DrainAnyBatch` covers batches in which one does
- OwnDestroy.DrainAnyBatch: requests have a payload, and fewer than 2^32 creations since reset
- BatchDrain.TailWriteDrains: the same requests, and a word-aligned tail value
- BatchDrain.BatchRepliesIff: the same requests
- Lockstep.ExchangeWorks: the request has a payload, a frame of at most half the usable ring, is not an async registration that would be accepted, and does not name the context behind its own channel for destruction
- Lockstep.EveryCallAnswered: the same requests
- Pipeline.FreshChannelIsFifoIff: the same requests, and async registrations
- Pipeline.PatientIsAnswered: the same requests, and async registrations
- Conversations.EveryChannelAnswered: the same requests; a session's own context is destroyed through another channel
- Conversations.EndedIsClosed: fewer than 2^32 creations since reset
- Conversations.OthersStayInStepIff: the request is one that `Lockstep.ExchangeWorks` covers
- Restart.RestartedExchangeIff: the same requests, and kept positions that are word-aligned and inside the ring, as those of a driver in step are
- DmaTiling.FillTiles: ranges that wrap the 64-bit address space are excluded
- ContextPool.IdsDistinct: fewer than 2^32 creations since reset
- ContextPool.DeadIdStaysDead: fewer than 2^32 creations since reset
- ContextPool.DestroyedNeverResolves: fewer than 2^32 creations since reset
- RingFifo.GetPops: about well-formed rings; on other contents the model's reader reports that a frame leaves the ring, where the test driver would read on
- DriverDevice.Driver.Submit: frames that fit in an empty ring; the test driver has no check of its own and would write past the ring
- DriverDevice.Driver.Recv: the ring must not be malformed in the way described for GetPops, and the driver's head must be the one it published; the branch for a head equal to the ring size cannot occur, since tails stay below it
- Interference.InterleavingIrrelevant: register writes only; that mailbox traffic leaves the PSP's and SMU's registers alone is `BootTrace.DrainSameCore`

Behaviour that is not modelled:

- Host memory contents: DMA calls have a result and are recorded, but no data; the two read callbacks for the image are one
- 64-bit statistics counters are unbounded
- Concrete version numbers, tile description and telemetry values are constants about which nothing is proved beyond size, status and that they cannot be mistaken for a reply
- Suspend and resume, PASID, heap and async-buffer addresses are stored; no later behaviour depends on them
- Column allocation: the code keeps no column map, so no disjointness is claimed
- Execution opcodes beyond one correctly sized INVALID_OPERATION reply
- Logging, `xdna_npu_free`, `xdna_npu_get_stats`, `xdna_npu_bar_size`
- The QEMU device, the kernel patches, scripts and guest images
