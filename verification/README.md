# tickbatch, verified

A Dafny model of tickbatch's three linked cores, with proofs of what holds over every run.

**The lock-free ring** (`ringbuf.go`). `RingSteps` is an interleaving step system: any number of
threads, each with its program counter and locals, one step per atomic action (cursor load,
sequence-number load, compare-and-swap, data access, sequence-number store, counter update). The
same step function runs on 64-bit words or on unbounded naturals. `RingInvariant` is the inductive
invariant; `RingSafety`, `RingProgress`, `RingDrain` and `RingOrder` draw the consequences for every
schedule; `RingBranches` tells every branch of every thread by the history alone, and so the exact
moments of refusal; `RingSolo` gives the complete effect of one call against threads suspended anywhere, and
`LostPushes` the runs in which DropOldest drops its item; `RingWords` shows that the 64-bit program
is the image of the unbounded one; `CapacityOne` shows that capacity 2 is needed. `Ringbuf` is the
ring as a class with arrays, proved to be a bounded queue when calls do not overlap. `Laps` is the
arithmetic of positions and slots.

**The delta/keyframe stream** (`codec/codec.go` against the sender in `batcher.go`). `Words`,
`Bytes` and `Crc32` define the bit-level CRC-32/IEEE and prove it affine over XOR. `Codec` is the
frame layout, `Decode` and the `DeltaReconstructor` class. `DeltaStream` proves exactly when the
receiver's two checksum tests accept, from any two baselines, and over whole streams exactly when
its output is the sender's raw frames, whatever is lost, delivered late or wrongly reported. `SpecGaps` gives concrete frames for the two places where the code does less
than the wire format document expects. `XorBytes` is the vectorised XOR, in place on arrays.

**The drain and flush engine** (`batcher.go`). `Packing` is the fill loop under an arbitrary
Marshal; `Engine` is one drain as a function of the state; `EngineRuns` is every run of drains with
a receiver at the other end, and `EngineBooks` its counters and sequence ids; `Batcher` is the object with its pre-allocated buffers, proved to do in
place what `Engine` says. `LiveBatcher` runs the drain loop inside the step system of the ring, so
that producers, evictors and the drain goroutine interleave, and shows that every such run is both
a run of the ring and a run of the engine. `FlushProtocol` is
`flushWithTimeout` as an interleaving of the drain goroutine with abandoned flush goroutines, and
`EndToEnd` composes it with the engine and the receiver.

`dafny verify dfyconfig.toml` checks the whole project. Nothing was executed: neither the Go
program nor a compiled form of the model.

## Where code and documentation disagree

The model follows the code.

- The wire format document says that a delta frame whose flag bit reads as one fails the direct
  checksum test (its receiver rules for delta encoding). It fails exactly when `Misread` is false (`MisreadIff`), and
  `DeltaReadAsKeyframe` is a family of frames that pass.
- It says that against a wrong baseline the reconstructed body fails its checksum
  (its paragraph on mid-stream joins). `DeltaAcceptsIff` is the exact condition; for two sound baselines of the
  frame's own length the test always passes (`WrongBaselineIsAccepted`, `LateDeliveryCorrupts`).
- `New` and `newRingbuf` accept a queue of capacity 1, on which the ring's protocol breaks
  (`CapacityOneIsBroken`). Everything else about the ring takes capacity at least 2.
- The comment on `flushWithTimeout` says a call is refused while a previous flush is still
  running. The flag is cleared after the result is sent, so a call can also be refused after a
  successful flush (`RefusedAfterSuccess`; the exact condition is `RefusedIff`).
- The comment on `Push` (batcher.go:281-286) says that DropOldest always succeeds unless a stalled
  producer holds the head slot. `DropsDuringMarshal` is a run for every capacity in which no
  producer is stalled and no race is lost: the drainer is in the middle of a Marshal, and the push
  evicts min(N - 1, 128) items and then drops its own. `DropsAfterLostRaces` is a run, ending with
  every thread idle, in which another producer wins the race for the head 128 times. `PushOutcome`
  is the exact condition, against threads suspended anywhere: the push enqueues if and only if the
  position one lap before the tail is recycled, or that position is the head and published. In
  every interleaving a refusal takes 129 attempts (`CallsAreBounded`), each of which found the slot
  at the tail occupied (`AttemptIff`, `RingBranches.RefusedIff`).
- The comment in `QueueDepth` (batcher.go:369-370) says that a head that appears ahead of the tail
  is reported as zero. On 64-bit words that fails exactly when the head wraps past the loaded tail
  between the two loads (`DepthWordsAtMostIff`; `DepthWordsTooLarge` is an input).

## Model

| member | source | states |
|---|---|---|
| `RingInvariant.StepKeeps` | ringbuf.go:79-199 | every atomic action of push, evictOldest, pop and popMarshal keeps the invariant: cursor bounds, one phase per position, the sequence number of each slot's latest position, one owner per claimed position, published data is the claimed item |
| `RingInvariant.InitHolds` | ringbuf.go:49-64 | a new ring whose slots carry their own indices satisfies the invariant if and only if its capacity is at least two |
| `RingInvariant.LoadBelowTail` | ringbuf.go:82-88 | what a sequence-number load can return for a position below the tail, by the phase of that position |
| `RingInvariant.LoadAtTail` | ringbuf.go:82-88 | what a sequence-number load returns at the tail: the position itself if the previous lap is recycled, less otherwise |
| `RingSafety.EveryRunIsSafe` | ringbuf.go:79-199 | in every state of every interleaving head <= tail <= head + N, each slot carries the sequence number of its latest position's phase, and no two threads hold one data slot |
| `RingSafety.HoldersApart` | ringbuf.go:88-92 | two threads between their winning compare-and-swap and their sequence-number store are on different slots |
| `RingSafety.StepRefines` | ringbuf.go:86-93 | each atomic action is an enabled action of a bounded FIFO queue, at the successful compare-and-swaps, or leaves it alone |
| `RingSafety.RunRefines` | ringbuf.go:79-199 | every run of the ring is a run of the bounded FIFO queue |
| `RingSafety.LifeCycle` | ringbuf.go:86-93 | a position moves only along writing, published, then reading and consumed, or evicting and evicted, and only by its own thread |
| `RingSafety.EachPositionOnce` | ringbuf.go:155-199 | with any number of consumers each claimed position is read at most once, with the value its producer wrote, and never when evicted |
| `RingSafety.PushRefusedIff` | ringbuf.go:104-109 | a push sees diff < 0 if and only if its position is the tail and the position one lap earlier is not recycled; then the queue is full or a thread still holds that position; diff > 0 means the tail has moved on |
| `RingSafety.PopRefusedIff` | ringbuf.go:168-169 | a pop sees diff < 0 if and only if its position is the head and unpublished; with no push in flight the queue is then empty; diff > 0 means the head has moved on |
| `RingSolo.SoloPush` | ringbuf.go:79-149 | from every reachable state, with the other threads suspended anywhere, a push run alone returns within 900 steps, and its complete effect on cursors, counters, claims, fates, reads and threads is `Pushed` |
| `RingSolo.PushOutcome` | ringbuf.go:79-149 | when such a push enqueues and what it costs: DropNewest if and only if the position one lap before the tail is recycled; DropOldest also if that position is the head and published, evicting that one item; otherwise DropOldest drops its item and evicts the published run at the head, at most 128 |
| `RingSolo.SoloPop` | ringbuf.go:155-199 | under the same condition a pop returns within 6 steps, with the oldest item if and only if it is published, and its complete effect is `Popped` |
| `LostPushes.DropsDuringMarshal` | ringbuf.go:104-122 | for every capacity N a run in which a DropOldest push, with no producer stalled and no race lost, evicts min(N-1, 128) items and drops its own, because the drainer holds the oldest slot while it marshals |
| `LostPushes.DropsAfterLostRaces` | ringbuf.go:118-121 | for every capacity a run, ending with every thread idle, in which a DropOldest push is dropped after another producer won the race for the head 128 times |
| `RingProgress.CallsAreBounded` | ringbuf.go:80-126 | in every interleaving a push loops at most 129 times plus once per tail advance by another thread, with at most 7 steps a round, and evicts at most 128 items; a DropOldest push is refused only after 129 attempts; a pop loops once plus once per head advance by another thread, with at most 3 steps a round before it succeeds |
| `RingProgress.DepthCall` | batcher.go:363-372 | whatever happens between its two loads, QueueDepth returns the depth at the first minus the head advances since, or zero if those are more; so exactly the depth when the head does not move |
| `RingProgress.DepthIsExact` | batcher.go:363-372 | the same in every run, with the consequence that it never exceeds the depth at either load or the capacity |
| `RingProgress.Conservation` | batcher.go:287-291 | whenever no call is in flight, pushes = dropped + tail and head = evicted + popped |
| `RingDrain.SoleDrainerIsFifo` | ringbuf.go:155-172 | with one drainer, every position below the head is read once, in claim order and with its claimed item, or was evicted, or is the one being read |
| `RingBranches.StepBranches` | ringbuf.go:79-199 | in every reachable state every thread takes the branch that the positions' history prescribes, without looking at a slot: free or occupied tail, published or unpublished head, race won or lost |
| `RingBranches.RefusedIff` | ringbuf.go:95-120 | a step turns a push to dropping its item if and only if it looks at the tail itself, the slot there is occupied, and the policy is DropNewest or 128 attempts are spent; a lost race never refuses |
| `RingBranches.AttemptIff` | ringbuf.go:110-121 | an attempt is spent, and an eviction begun, if and only if a DropOldest push looks at an occupied tail slot; the call's item and policy never change |
| `RingBranches.PopReturnsIff` | ringbuf.go:161-171 | a step lets a pop return without an item if and only if it looks at the head itself and the queue is empty or its first producer has not stored yet |
| `RingBranches.DropNewestRefusals` | ringbuf.go:104-109 | under DropNewest with one drainer a step refuses a push only at depth N, or at N-1 while the drainer holds the position just below the head |
| `RingOrder.ProducerOrder` | ringbuf.go:86-93 | under every interleaving the claims of each producer are its accepted pushes in the order of their returns, followed by the one in progress, and the drainer reads the items of one producer in that order |
| `RingWords.DiffWordsIff` | ringbuf.go:84-84 | the signed 64-bit difference of two wrapped cursors is the true difference if and only if that lies in [-2^63, 2^63) |
| `RingWords.SlotWords` | ringbuf.go:83-83 | the slot index is consistent across the wrap when the capacity divides 2^64 |
| `RingWords.DepthWordsIff` | batcher.go:363-372 | QueueDepth on wrapped cursors is exact if and only if no wrap of 2^64 lies between its two loads |
| `RingWords.DepthWordsAtMostIff` | batcher.go:363-372 | QueueDepth on wrapped cursors is still a lower bound if and only if the head has not wrapped past the loaded tail; otherwise it returns 2^64 minus the distance |
| `RingWords.DepthWordsTooLarge` | batcher.go:363-372 | an input for which an empty queue is reported as 2^64 - 6 items |
| `RingWords.StepWordsIff` | ringbuf.go:79-199 | one step of the 64-bit program is the image of the unbounded step if and only if the comparison it makes comes out alike modulo 2^64 |
| `RingWords.FreshAgrees` | ringbuf.go:82-88 | comparisons come out alike while the mover's loaded position is less than 2^63 - N advances behind its cursor |
| `RingWords.StaleDistance` | ringbuf.go:84-84 | the distances 2^63 and 2^64 do not compare alike |
| `RingWords.RunOnWords` | ringbuf.go:79-199 | run for run, through any number of wraps, the 64-bit program takes the branches of the unbounded one while its comparisons come out alike |
| `RingWords.ProgramRuns` | ringbuf.go:49-64 | the same from the ring that newRingbuf makes, while no mover is 2^63 - N advances behind |
| `RingWords.ProgramDepth` | batcher.go:363-372 | what QueueDepth of the 64-bit program returns in every run: without a wrap between the loaded cursors the depth at the first load minus the head advances, floored at zero; zero if only the tail had wrapped; the wrapped distance if the head wrapped past the loaded tail |
| `CapacityOne.PushesNeverFull` | ringbuf.go:86-93 | on a ring of capacity one every uncontended push succeeds under either policy and the slot keeps the last item only |
| `CapacityOne.PopSpins` | ringbuf.go:155-172 | a pop that sees a sequence number two or more ahead on such a ring loops for any number of steps |
| `CapacityOne.CapacityOneIsBroken` | ringbuf.go:49-64 | for every k >= 2 pushes on a new ring of capacity one: nothing dropped, nothing evicted, all but the last item overwritten, and a pop then never returns |
| `Ringbuf.Ringbuf.constructor` | ringbuf.go:49-64 | every slot carries its index; the new ring is valid, and then empty, if and only if its capacity is at least two |
| `Ringbuf.Ringbuf.EvictOldest` | ringbuf.go:140-149 | alone, an eviction removes exactly the oldest item and counts it; on an empty ring it does nothing |
| `Ringbuf.Ringbuf.Push` | ringbuf.go:79-126 | alone, DropNewest refuses exactly on a full ring and changes nothing; DropOldest always succeeds, evicting exactly the oldest item when full and none otherwise |
| `Ringbuf.Ringbuf.Pop` | ringbuf.go:175-199 | alone, pop fails exactly on the empty ring and otherwise takes the oldest item |
| `Crc32.FeedAllLinear` | codec/codec.go:65-68 | the CRC register is linear in initial value and message together |
| `Crc32.Affine` | codec/codec.go:65-68 | the CRC-32 of a threefold XOR of equally long messages is the XOR of the three CRCs |
| `Crc32.FeedAllAppend` | codec/codec.go:65-68 | the CRC of a concatenation goes on from the register of its first part, so every byte is fed |
| `Crc32.DetectsByteError` | codec/codec.go:65-68 | changing any one byte of any message changes its CRC-32 |
| `Crc32.FeedByTable` | codec/codec.go:65-68 | one byte in table-driven form: the low byte of the register is shifted out and the table entry for its XOR with the message byte is added |
| `Crc32.TablePowers` | codec/codec.go:65-68 | the eight table entries that determine the others, as published for CRC-32/IEEE |
| `Crc32.CheckValues` | codec/codec.go:65-68 | the CRC of no message is 0 and that of the digits 1 to 9 is the standard check value CBF43926 |
| `Codec.RawFrameParts` | batcher.go:577-592 | the header that the sender writes reads back as its sequence id, count, truncated checksum and keyframe flag, and the frame is sound |
| `Codec.DecodeRawFrame` | codec/codec.go:74-84 | Decode undoes the sender's layout |
| `Codec.DecodeAccepts` | codec/codec.go:74-84 | Decode accepts a frame only if it is the sender's layout of what it returns; each error means exactly a short frame or a checksum mismatch |
| `Codec.HeaderNumbers` | codec/codec.go:52-63 | sequence id, count and tag are the little-endian numbers in bytes 0-3, 4-5 and 6-7; the tag's top bit is the flag |
| `Codec.CrcNumbers` | codec/codec.go:66-68 | the checksum test compares the low fifteen bits of the body's CRC-32 |
| `Codec.DeltaReconstructor.constructor` | codec/codec.go:91-93 | the zero value has an empty baseline |
| `Codec.DeltaReconstructor.Reconstruct` | codec/codec.go:103-134 | result and new baseline are those of `Receive`, about which the stream lemmas below are proved; every error leaves the baseline alone |
| `Codec.ReceiveAny` | codec/codec.go:103-134 | for any bytes: a frame under 8 bytes is ErrShortFrame, every other error a checksum mismatch, every error keeps the baseline; a success returns a sound frame of the same length, the frame itself or its XOR with the baseline, and makes it the baseline |
| `DeltaStream.DeltaAcceptsIff` | codec/codec.go:116-133 | a delta frame sent against one baseline and decoded against another passes the checksum test if and only if the low 15 bits of the XOR of the baselines' CRCs equal those of the XOR of their tags, whatever the items |
| `DeltaStream.WrongBaselineIsAccepted` | codec/codec.go:116-133 | two sound baselines of the frame's length always pass, and the frame is right if and only if they are equal |
| `DeltaStream.MisreadIff` | codec/codec.go:108-114 | a delta frame reads as a keyframe if and only if the sender's baseline meets the misread condition at the frame's length |
| `DeltaStream.MisreadNeedsKeyframe` | codec/codec.go:108-114 | the misread condition needs a keyframe as baseline, and for equal lengths it is that the CRC of the zero body has zero low 15 bits |
| `DeltaStream.KeyframeArrives` | codec/codec.go:108-114 | a keyframe is received as it is from any baseline |
| `DeltaStream.DeltaArrivesIff` | codec/codec.go:103-134 | with equal baselines a delta frame is reconstructed, and the baselines stay equal, if and only if it is not misread; a misread one is reported as success |
| `DeltaStream.ReceiveExactIff` | codec/codec.go:103-134 | from any two baselines a delta frame is reconstructed, and the receiver's new baseline is the frame, if and only if it is not misread and the baselines agree over its length |
| `DeltaStream.ReceiveAcceptsIff` | codec/codec.go:103-134 | from any two baselines Reconstruct reports success if and only if the frame is misread or the baselines' truncated checksums over its length differ by as much as their tags; every failure is a checksum mismatch and keeps the baseline |
| `DeltaStream.FreshJoinIff` | codec/codec.go:116-133 | exactly when a receiver without a baseline accepts a delta frame, and that it then returns the bytes on the wire |
| `DeltaStream.StaleReceiverIsFooled` | codec/codec.go:103-134 | with a stale sound baseline of the same length the receiver reports success, and its frame is right if and only if the baselines are equal |
| `DeltaStream.AnyStreamExactIff` | codec/codec.go:103-134 | over every stream of attempts, whatever is lost, delivered late or wrongly reported, and from any two baselines, the outputs are the delivered raw frames in order if and only if no arriving delta frame is misread and the last reported and the last delivered frame agree over its length |
| `DeltaStream.StreamExactIff` | codec/codec.go:103-134 | over every stream of failed and successful flushes and frames of any lengths, from equal baselines, if frames arrive exactly when Flush returns nil, the outputs are the raw frames in order if and only if no delivered delta frame is misread |
| `DeltaStream.NoKeyframesNoMisread` | batcher.go:587-591 | a stream without keyframes has no misread frame |
| `DeltaStream.PlainStreamIsExact` | codec/codec.go:116-134 | from frame one, a stream without keyframes is reconstructed unconditionally |
| `DeltaStream.KeyframeResynchronises` | codec/codec.go:108-114 | after any history and from any two baselines, one keyframe delivered and reported successful makes everything after it exact if and only if the continuation stays in step, which for a faithful one means that nothing is misread |
| `SpecGaps.DeltaReadAsKeyframe` | codec/codec.go:108-114 | after a keyframe with body FF 00 every one-byte delta frame is taken for a keyframe and returned wrongly without an error |
| `SpecGaps.LateDeliveryCorrupts` | codec/codec.go:116-134 | after a flush delivered but reported failed, the next delta frame of the same length is accepted with wrong content |
| `XorBytes.WordIsBytes` | encode.go:36-45 | a word XOR is eight byte XORs in memory on either byte order |
| `XorBytes.XorWord` | encode.go:38-38 | one word assignment extends the finished part by eight bytes and touches nothing else |
| `XorBytes.XorTail` | encode.go:50-60 | the byte tail finishes the last len(a) mod 8 bytes |
| `XorBytes.XorInto` | encode.go:20-61 | panics exactly when a non-empty a is longer than dst or b, before any write; otherwise writes exactly the bytewise XOR of the first len(a) bytes and leaves the rest of dst alone, also when dst is a or b |
| `XorBytes.XorTwiceInPlace` | encode.go:20-61 | applied twice in place with one operand it restores the array |
| `Words.Count16Iff` | batcher.go:577-579 | the 16-bit count field represents a count exactly if and only if it is at most 65535 |
| `Words.Count16Number` | batcher.go:577-579 | up to 65535 the count field is the number itself |
| `Packing.PackIsSafe` | batcher.go:538-564 | for any Marshal return value the loop stays inside its buffer, ends with 8 <= offset <= len, has at most 65535 items and no more than body bytes, the body is the concatenation of the parts, and what stays queued is a suffix |
| `Packing.PackHoldsItems` | batcher.go:541-564 | part i is the bytes that item i claimed of the buffer that the earlier items left, those it wrote and behind them those already there; the loop stops exactly on an empty queue, 65535 items, too little space or a truncated item |
| `Packing.PackStopsBecause` | batcher.go:541-545 | items stay queued without a truncation only if fewer than MaxItemSize bytes are left or the count field cannot hold one more |
| `Packing.PackMakesProgress` | batcher.go:230-232 | a drain of a non-empty queue takes at least one item off it if and only if the buffer has room for the header and one item |
| `Packing.DrainEmptiesIff` | batcher.go:541-564 | one drain empties the queue if and only if each item finds MaxItemSize bytes and a count below 65535 and none but the last is truncated |
| `Engine.RebaseIsFit` | batcher.go:648-652 | copying the frame and clearing only up to the previous offset gives the frame zero-extended to the whole buffer |
| `Engine.NextKeyIsMod` | batcher.go:657-662 | the keyframe counter is the number of successful flushes modulo the interval |
| `Engine.DrainKeeps` | batcher.go:538-664 | every drain keeps: baseline = last successfully flushed frame zero-extended, popped = flushed + truncated + lost, keyframe cadence |
| `Engine.PayloadIsEncoded` | batcher.go:624-630 | the payload is the raw frame for keyframes and otherwise its XOR with the last delivered frame zero-extended |
| `Engine.DrainEmits` | batcher.go:566-646 | every emitted frame is sound, is flagged as a keyframe exactly when the successful flushes are a multiple of the interval, has 1 to 65535 items and at least as many body bytes, and Decode returns its id, its count and the items' bytes |
| `EngineRuns.RunsKeep` | batcher.go:538-664 | over every run of drains with any queues, Marshal, compression and flush results: exact baseline, conservation of items, keyframe cadence unshifted by failures |
| `EngineBooks.RunsCount` | batcher.go:611-618 | over every run: batches, bytes and errors are those of the attempts; items are the counts in the frames reported delivered; truncated is the number of truncating items; lost is every part of every other drain |
| `EngineBooks.RunsIds` | batcher.go:573-573 | the frames of a run's attempts, failed and unsent ones included, carry the ids start + 1, start + 2 and so on modulo 2^32 |
| `EngineBooks.FromStart` | batcher.go:244-263 | from a new batcher the ids are 1, 2, 3 and so on, and all counters are those of its own run |
| `EngineRuns.EngineStreamIff` | batcher.go:587-662 | over every run of drains, from any state and any receiver baseline, with nothing assumed about the sink, Reconstruct returns the raw frames of the arriving payloads in order if and only if the two sides stay in step |
| `EngineRuns.EngineRoundTrip` | batcher.go:587-662 | over every run of drains from New, if a frame arrives exactly when Flush returns nil, Reconstruct returns the sender's raw frames in order if and only if no delivered delta frame is misread |
| `EngineRuns.EngineRoundTripPlain` | batcher.go:587-662 | with KeyframeInterval 0 that round trip is unconditional |
| `EngineRuns.EngineResynchronises` | batcher.go:625-651 | from any receiver baseline, one keyframe drain delivered and reported successful makes the baselines equal, and every reliable run after it is exact if and only if nothing in it is misread |
| `EngineRuns.DrainsEmptyTheQueue` | batcher.go:541-564 | with producers stopped, each drain removes a non-empty prefix in order, so k drains empty a queue of k items |
| `EngineRuns.FinalDrainIff` | batcher.go:710-713 | the one final drain empties the ring if and only if the queue fits one batch |
| `Batcher.Batcher.constructor` | batcher.go:244-263 | a new batcher is valid if and only if its queue has capacity at least two; then its view is the engine's start state and the run invariant holds |
| `Batcher.Batcher.Push` | batcher.go:287-291 | the item is appended, or dropped and counted, or replaces the oldest, as the policy says; pushes = dropped + tail and head = evicted + popped are kept |
| `Batcher.Batcher.FillBatch` | batcher.go:538-564 | the loop on the ring and the byte buffer does exactly what `Pack` does to the queue and the buffer's bytes |
| `Batcher.Batcher.WriteHeader` | batcher.go:570-592 | afterwards the buffer starts with the raw frame of its body and the rest is untouched; the sequence id advances by one modulo 2^32 |
| `Batcher.Batcher.BuildFrame` | batcher.go:570-592 | the byte buffer starts with the engine's raw frame of the packed batch |
| `Batcher.Batcher.MakePayload` | batcher.go:620-630 | the payload is the raw frame or the delta computed by xorBytes against previousState, and no other buffer changes |
| `Batcher.Batcher.AdvanceBaseline` | batcher.go:648-652 | previousState becomes the engine's rebased baseline |
| `Batcher.Batcher.Settle` | batcher.go:643-663 | an error costs the batch and one error count; a success advances baseline, counters and cadence |
| `Batcher.Batcher.DrainAndFlush` | batcher.go:538-664 | one drain on the object is one step of the engine on its view, with the same event, and keeps the run invariant |
| `LiveBatcher.EveryRunIsBoth` | batcher.go:538-664 | under every interleaving of producers, evictors and the drain goroutine the ring goes through a run of the ring and the engine through a run of the engine, and the queues of the engine's drains are, end to end, the items read in claim order without the evicted ones |
| `LiveBatcher.FrameInClaimOrder` | batcher.go:541-592 | under every interleaving a drain's frame decodes to its parts, and part i is what the i-th item that this drain read from the ring marshalled |
| `LiveBatcher.Conservation` | batcher.go:287-291 | whenever no call is in flight and no drain under way: pushes = dropped + tail, head = evicted + popped, and popped = flushed + truncated + lost; at any time flushed, truncated and lost are those of the run's frames and drains |
| `LiveBatcher.StopsBecause` | batcher.go:541-564 | under every interleaving a drain stops taking items only at 65535 parts, too little space, a truncating item, or a head unpublished at its load |
| `LiveBatcher.OthersAreFree` | batcher.go:538-564 | whatever the drain goroutine is doing, the other threads can take any steps of the ring |
| `FlushProtocol.NextKeeps` | batcher.go:507-529 | every step of the drain goroutine and of any flush goroutine keeps the protocol's invariant |
| `FlushProtocol.EveryRunIsSafe` | batcher.go:507-529 | in every interleaving at most one Sink.Flush runs, timeoutBuf is not written while it runs and holds its payload, a nil result means this call's own payload was delivered, a refused call delivered nothing, and deliveries are the calls' own payloads in call order |
| `FlushProtocol.DeliveriesAscend` | batcher.go:507-529 | deliveries name strictly increasing calls, so no payload is delivered twice |
| `FlushProtocol.BeliefIsExactIff` | batcher.go:507-529 | what the sink received is the sequence of payloads reported nil if and only if no flush delivered without its call returning nil |
| `FlushProtocol.RefusedIff` | batcher.go:513-515 | a call is refused if and only if the goroutine of an earlier call has not yet cleared the flag |
| `FlushProtocol.AbandonedFlushFinishes` | batcher.go:519-522 | once its sink returns, an abandoned goroutine can always report and clear the flag, after which nothing is in flight |
| `FlushProtocol.OutcomesAreFinal` | batcher.go:523-528 | a returned call keeps its result whatever its goroutine does later |
| `FlushProtocol.ResultIsAnswer` | batcher.go:519-525 | a call that received a result received its own sink's: nil if its Sink.Flush returned nil, an error if that returned an error |
| `FlushProtocol.ErrorsAreReported` | batcher.go:519-525 | a run in which a sink's error reaches the call |
| `FlushProtocol.DeliveredButTimedOut` | batcher.go:523-528 | a run in which a delivered, successful flush is reported as a timeout |
| `FlushProtocol.RefusedAfterSuccess` | batcher.go:498-501 | a run in which a call is refused although no Sink.Flush runs and the earlier call returned nil |
| `EndToEnd.LogIsHops` | batcher.go:507-529 | a receiver of the sink's log gets what a receiver of the delivered attempts gets |
| `EndToEnd.StreamThroughFlush` | batcher.go:507-529 | for every interleaving with flush goroutines, late deliveries included, the receiver of the sink's log returns the delivered raw frames in order if and only if the last frame reported nil and the last frame delivered stay in step |
| `EndToEnd.RoundTripThroughFlush` | batcher.go:507-529 | for every interleaving with flush goroutines and every run of drains, if no flush delivered without its call returning nil, the receiver of the sink's log returns the raw frames of the nil calls in order if and only if none is misread |

## Left out

- UDPSink, StdoutSink, CopyingSink, TCPSink and the contrib adapters: socket I/O or thin wrappers.
- The compressor's algorithm: a drain takes "off", "failed" or any bytes as the compressor's part. The round trips are stated for streams without a compressor.
- Tickers, timestamps, lastFlushAt, coalescedTicks, reportError and Stats copying: time, logging and plumbing.
- Context plumbing: a deadline is a step that may happen at any time. ShutdownTimeout's backstop around the final drain is not modelled.
- The branches of New that reject a configuration: the model takes the facts they establish (MaxItemSize > 0, MaxBatchSize >= 8 + MaxItemSize) as ValidConfig. QueueSize a power of two is used only where it matters, as "the capacity divides 2^64".
- Cache-line padding, inlining, allocation and unsafe alignment: no functional content.
- Go's memory model: the step system interleaves atomic actions and plain data accesses sequentially consistently. HoldersApart and SnapshotHeld say that the plain accesses never overlap.
- `pos & mask` is written `pos % N`, equal for a power of two; pop and popMarshal are one sequence of steps, since they differ only in what happens to the item between the data read and the sequence-number store.
- Ringbuf.Ringbuf.Pop: the class states what calls do when they do not overlap, on a valid ring, that is with capacity at least 2; overlap is the subject of the step system.
- Batcher.Batcher.FillBatch: popMarshal is a pop followed by Marshal, with no other call in between; the interleaved loop, which marshals before it releases the slot, is LiveBatcher.
- LiveBatcher.EveryRunIsBoth: the flush at the end of a drain is one step there; its own interleavings are FlushProtocol, composed with the engine in EndToEnd.
- Batcher.Batcher.DrainAndFlush: counters are unbounded where the code has uint64, and keyframeN is unbounded where the code has uint32 (it stays below the interval). The compressor's buffer is not a field.
- FlushProtocol.EveryRunIsSafe: a sink is taken to deliver a payload at most once, after reading all of it, and to return nil only then. Payloads fit timeoutBuf, as all payloads of a drain do (batcher.go:257-261). The path with FlushTimeout 0 calls the sink directly and is not in the step system.
- Codec.DeltaReconstructor.Reconstruct: frames are values, so that the returned slice shares memory with the stored baseline, and that a caller could change it, is not modelled.
- XorBytes.XorInto: slices are array prefixes; dst may be a or b, but partially overlapping slices are not modelled.
