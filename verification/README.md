# Verification of the collector's protocols and state machines

This project models the parts of the ESP32 collector and its test scripts that have to be right for every
input and every run, and proves what they promise. One module stands for one component:

| module | component |
|---|---|
| `Wire`, `WireLayout` | base-128 numbers and tagged fields: the encoders and decoders of three scripts and the firmware's strict decoder |
| `ManifestRebuild`, `ManifestLaws`, `ManifestEdits` | the tool that rewrites a configuration manifest at three nesting levels |
| `DataBatch`, `DataBatchEncoder`, `DataBatchDecoder`, `DataBatchLayout` | the DataBatch (0x20) frame: size predictor, in-place encoder, strict decoder |
| `BatchQueue`, `BatchTurns` | the report queue that joins samples into such frames, and its task interleaved with the producers |
| `SlotTable`, `SlotLaws` | the ChannelCmdV2 control slots: deduplication, replay, eviction, plan lending |
| `ConfigTransaction` | the configuration transaction: gated steps, commit, rollback, safe state, fatal stop |
| `UartReceive`, `ReceiveLaws`, `ReceiveFrames` | one UART channel: how bytes become frames and pending commands are closed |
| `BatchPlan`, `BatchExecutor`, `BatchCommand` | batch commands: the plan from the handler's check to the executor's result, and from its slot to the published final |
| `UartRegistry`, `RegistryLaws`, `RegistryAnswers` | the registry of resident UART drivers and their leases |
| `TxArena` | the transaction arena with its canary |
| `Handshake` | the device link's application handshake |
| `Crc`, `CrcMessages`, `CrcPolynomials` | the Modbus CRC-16 (section 6.2.2 of "MODBUS over Serial Line V1.02") and the CRC-32 (clause 3.2.9 of IEEE 802.3-2018) |
| `Deframer` | the frame loop of the UART slave simulator |
| `BmsSimulator`, `BmsAnswers` | the battery simulator's request handler |
| `SequenceLoss` | loss accounting by sequence number |

Code that updates state is a class or a method with its loops, proved equal to a pure specification function;
the laws are lemmas about that function, over single steps and over whole runs. What the outside world
decides (callback results, memory readings, arrival of bytes, time, driver answers) is an input of each step,
and each task action is one atomic step. What such a function means on the outside (which bytes, which limits,
which codes, in which order) is stated again in plain numbers by lemmas that do not mention it (`WireLayout`,
`ManifestEdits`, `DataBatchLayout`, `ReceiveFrames`, `RegistryAnswers`, `CrcPolynomials`, `BmsAnswers`, and beside
the laws of the other modules).

`dafny verify dfyconfig.toml` checks the whole project.

## What the proofs found

Each of these is a lemma with a concrete input or an exact condition.

- Rebuilding a manifest twice equals rebuilding it once only if no edited bus configuration is shorter than two
  bytes; an unnamed channel keeps its bytes only if they were the shortest encoding (`ManifestLaws`).
- Two compatible samples with the same timestamp are put back and retried for ever, whatever the producers do
  meanwhile, because the queue accepts "not before the first" and the encoder asks for "after the first"
  (`BatchQueue.SendableIffOrdered`, `BatchTurns.EqualTimestampsJam`). Every block ends up in the jammed queue, and
  from then on every telemetry sample is dropped (`BatchTurns.JammedForever`). The batch codec itself allows equal
  timestamps among later samples: offsets after the first are positive and never decrease.
- A passive stream is dropped when a burst passes the 512-byte block while the bytes already buffered are no
  multiple of the 256-byte read (`ReceiveLaws.PassiveBurst`). The comment in
  `esp32-collector/components/bus_worker/include/bus_rx_boundary.h` speaks of handing passive bytes over at
  once; the code waits for a full block, and the model follows the code.
- Reading bytes never leaves a whole frame waiting, but sending a command can: ten bytes that wait on a passive
  line when a command of eight is sent stay where they are until the next byte arrives, and are then taken for its
  answer (`ReceiveFrames.NoWholeFrameWaits`, `ReceiveFrames.CommandOverWaiting`).
- A dynamic UART request uses the index of a free registry slot as a controller number. If that controller is
  resident in another slot, a leased driver is reconfigured under its owner (`RegistryLaws.AgreesIff`,
  `RegistryLaws.StolenInTwo`).
- An arena request above 2^32 - 16 bytes wraps to size 0 and is granted; canary damage is noticed only at the
  end of the transaction, and damage outside a transaction is covered up by the next one (`TxArena`).
- A batch that was carried out in full is published as an overflow, without its replies, exactly when its result
  is larger than the 128 bytes a slot stores, although the executor allows 256; for steps that declare what they
  read, the sizes in the command decide it (`BatchCommand.BatchFinal`).
- Asking the battery simulator for its protection counts ends it exactly when it was started with a restart count
  that does not fit 16 bits and has not been reset since (`BmsSimulator.CountsReadRaisesIff`).
- A battery serial number with a byte above 127 is accepted and ends the simulator when it is read back
  (`BmsSimulator.SnReadBackIff`). The switch policy is taken from byte 5 of the request even when the request
  announces no data.
- A link generation for which no nonce could be obtained never sends a Hello (`Handshake.GenerationSends`).
- The log stream may be skipped for lack of memory in a transaction that still succeeds
  (`ConfigTransaction.Transaction.Execute`).
- A command that a full bus queue refuses keeps its slot as a result that is given away before any completed
  one (`SlotLaws.ReplayWindow`).

## Model

| member | source | states |
|---|---|---|
| `Wire.EncVarint` | scripts/bench_manifest.py:40-46 | the loop of the manifest tool produces the one base-128 encoding of every natural number |
| `Wire.SimVarint` | scripts/esp32_simulator.py:46-56 | the simulator's loop produces the same bytes |
| `Wire.C6Varint` | scripts/c6_uart0_full_validation.py:100-107 | the validation script's loop produces the same bytes |
| `Wire.DecVarint` | scripts/bench_manifest.py:49-56 | reads the number at a cursor and where it ends; running out of input raises |
| `Wire.DecodeFieldsLoop` | scripts/bench_manifest.py:59-73 | the field loop at a cursor decodes field by field, stops or raises at an unknown wire type, and cuts an over-long byte field short |
| `Wire.DecodeEncode` | scripts/esp32_simulator.py:85-127 | decoding inverts encoding for every list of number and byte fields |
| `Wire.DecodeFieldsInverts` | scripts/bench_manifest.py:59-73 | an encoded list in front of any other bytes is read back first, unchanged |
| `Wire.ReadGuardedLoop` | scripts/c6_uart0_full_validation.py:118-170 | the inner loops give up after ten bytes and keep a partial number at the end of the input |
| `Wire.ParseFieldsLoop` | scripts/c6_uart0_full_validation.py:118-170 | the tolerant parser as loops; it always returns the fields it has |
| `Wire.ScriptDecodersAgree` | scripts/c6_uart0_full_validation.py:118-170 | the three script decoders return the same fields on every frame whose numbers fit the ten-byte guard |
| `Wire.StrictVarintExact` | esp32-collector/components/frame/frame_codec.c:131-162 | the firmware reader accepts exactly the shortest encodings of 64-bit numbers |
| `Wire.ReadStrictLoop` | esp32-collector/components/frame/frame_codec.c:131-162 | the reader as the loop it is, byte by byte |
| `Wire.NextStrictAt` | esp32-collector/components/frame/frame_codec.c:164-208 | one field at a cursor: field number 1 to 255, wire type 0 or 2, body within the buffer |
| `Wire.StrictExact` | esp32-collector/components/frame/frame_codec.c:164-208 | the firmware decoder accepts a byte string if and only if it is the encoding of deliverable fields, and returns those |
| `WireLayout.VarintMeans` | scripts/bench_manifest.py:40-46 | a number is written as the one shortest string of seven-bit groups, lowest first, that stands for it |
| `WireLayout.FieldMeans` | scripts/bench_manifest.py:277-282 | a field is eight times its number plus its wire type, then its number, or its length and bytes |
| `WireLayout.ReadVarintMeans` | scripts/bench_manifest.py:49-56 | on any bytes: the value up to the first byte without the top bit, or an error when there is none |
| `WireLayout.ReadGuardedMeans` | scripts/c6_uart0_full_validation.py:118-170 | on any bytes: gives up after the guard, keeps a partial number at the end of the input |
| `WireLayout.NextFieldMeans` | scripts/bench_manifest.py:59-73 | numbers, and byte fields cut short by the end of the input |
| `WireLayout.UnknownTypes` | scripts/esp32_simulator.py:85-127 | any other wire type ends the list for the one decoder and raises in the other |
| `WireLayout.StrictMeans` | esp32-collector/components/frame/frame_codec.c:164-208 | the strict decoder accepts exactly shortest encodings of fields 1 to 255 with 64-bit numbers |
| `ManifestRebuild.RebuildFrame` | scripts/bench_manifest.py:249-292 | the outer loop over the frame rebuilds channels and copies everything else |
| `ManifestRebuild.RebuildChannel` | scripts/bench_manifest.py:255-288 | a channel is rewritten for the edit of its last id; a baud rate that does not fit raises |
| `ManifestRebuild.RebuildEdge` | scripts/bench_manifest.py:272-285 | an edge device is rewritten command by command |
| `ManifestRebuild.RebuildCommand` | scripts/bench_manifest.py:275-282 | a command gets the new interval and keeps every other field |
| `ManifestLaws.RebuildCommutes` | scripts/bench_manifest.py:249-292 | decoding the rebuilt frame is the decoded frame with the edits applied at all three levels and nowhere else |
| `ManifestEdits.RebuildEdits` | scripts/bench_manifest.py:249-292 | field by field: of a named channel the four baud bytes 2 to 5, big-endian, the interval and the command intervals become what was asked for, every other field stays |
| `ManifestEdits.BusEdits` | scripts/bench_manifest.py:265-270 | where the baud rate goes, also in configurations that are too short for it |
| `ManifestLaws.RebuildRaises` | scripts/bench_manifest.py:265-269 | rebuilding a readable frame raises exactly when a new baud rate does not fit four bytes |
| `ManifestLaws.UnnamedUntouched` | scripts/bench_manifest.py:249-292 | what is not named keeps its fields, and its bytes exactly when they were canonical |
| `ManifestLaws.LongTagIsRewritten` | scripts/bench_manifest.py:249-292 | a channel with a two-byte tag where one would do: not named, yet its bytes change |
| `ManifestLaws.NoEditsNoChange` | scripts/bench_manifest.py:249-292 | edits without any option return a canonical frame byte for byte |
| `ManifestLaws.RebuildTwice` | scripts/bench_manifest.py:249-292 | rebuilding twice always succeeds and equals rebuilding once exactly when no edited bus configuration is shorter than two bytes |
| `DataBatch.SizeIsExact` | esp32-collector/components/msg_handler/data_batch_codec.c:80-108 | the size predictor equals the length of the frame on every varint width and optional-field branch |
| `DataBatch.BatchRoundTrip` | esp32-collector/components/msg_handler/data_batch_codec.c:197-325 | the decoder inverts the encoder on every valid sample list |
| `DataBatch.AcceptedExactly` | esp32-collector/components/msg_handler/data_batch_codec.c:197-325 | a frame is accepted if and only if it is the type byte and the encoding of a field list that obeys the count, first-delta, ordering and size rules |
| `DataBatch.AcceptedIsValid` | esp32-collector/components/msg_handler/data_batch_codec.c:197-325 | whatever the decoder accepts satisfies the rules the encoder enforces |
| `DataBatchLayout.SendableSamples` | esp32-collector/components/msg_handler/data_batch_codec.c:111-132 | one to four samples of 1 to 1024 bytes, the first at offset 0, the others later and in order |
| `DataBatchLayout.FrameMeans` | esp32-collector/components/msg_handler/data_batch_codec.c:134-182 | which field of a frame holds what |
| `DataBatchLayout.DecodedValues` | esp32-collector/components/msg_handler/data_batch_codec.c:197-325 | each value of an accepted frame is that of its own field, cut to its width |
| `DataBatchLayout.DecodedSamples` | esp32-collector/components/msg_handler/data_batch_codec.c:197-325 | the samples of an accepted frame are its fields 5 |
| `DataBatchEncoder.EncodeBatch` | esp32-collector/components/msg_handler/data_batch_codec.c:134-182 | writes exactly the frame in place; an invalid batch or too little room leaves the buffer untouched |
| `DataBatchEncoder.Encoder.AppendSample` | esp32-collector/components/msg_handler/data_batch_codec.c:46-78 | writes one sample behind the cursor and moves it, or reports that it does not fit |
| `DataBatchDecoder.DecodeBatchLoop` | esp32-collector/components/msg_handler/data_batch_codec.c:197-325 | the decoding loops, which stop at the first broken rule, return what the specification says |
| `BatchQueue.Reporter.TryDataBatch` | esp32-collector/components/bus_worker/bus_worker.c:737-796 | one aggregation attempt: what it takes from the queue, sends, frees, or puts back |
| `BatchQueue.Reporter.Enqueue` | esp32-collector/components/bus_worker/bus_worker.c:933-985 | a producer's sample takes the next free block and the last place of the queue, or is dropped and counted |
| `BatchQueue.Reporter.PutBack` | esp32-collector/components/bus_worker/bus_worker.c:785-795 | samples go back to the head of the queue in order; those that no longer fit are dropped and counted, and their blocks freed last one first |
| `BatchQueue.Reporter.Publish` | esp32-collector/components/msg_handler/handler_data.c:356-398 | a group is sent as its frame exactly when the encoder is there and accepts it |
| `BatchQueue.JoinsLongestPrefix` | esp32-collector/components/bus_worker/bus_worker.c:639-655 | the samples taken are the longest queue prefix with equal routing, no critical sample, inside the time window and frame size |
| `BatchQueue.GroupMeans` | esp32-collector/components/bus_worker/bus_worker.c:639-655 | a group has at most four samples of one channel, device, template and index, none critical or empty, less than 20 ms apart from the first, in at most 1400 bytes |
| `BatchQueue.SendableIffOrdered` | esp32-collector/components/bus_worker/bus_worker.c:639-655 | a group passes the encoder exactly when its timestamps increase after the first and never go back |
| `BatchQueue.SentDecodesToGroup` | esp32-collector/components/bus_worker/bus_worker.c:703-728 | a frame that is sent fits the buffer and decodes to exactly its samples |
| `BatchQueue.ServeExactly` | esp32-collector/components/bus_worker/bus_worker.c:798-879 | a turn takes a queue prefix, sends it once, frees exactly its blocks; it changes nothing exactly when the head is jammed |
| `BatchTurns.StepsMakeATurn` | esp32-collector/components/bus_worker/bus_worker.c:737-879 | with nothing in between, the task's steps from one receive to the next are one turn |
| `BatchTurns.NothingDroppedBack` | esp32-collector/components/bus_worker/bus_worker.c:737-985 | however producers and the task interleave, every block is free or owned by exactly one sample, and putting samples back always finds room |
| `BatchTurns.JammedMore` | esp32-collector/components/bus_worker/bus_worker.c:737-796 | a jammed queue stays jammed whatever is appended to it |
| `BatchTurns.JammedForever` | esp32-collector/components/bus_worker/bus_worker.c:737-985 | a jam survives every interleaving of arrivals and task steps: nothing more is sent or reported, and samples are accepted exactly until the blocks run out |
| `BatchTurns.EqualTimestampsJam` | esp32-collector/components/bus_worker/bus_worker.c:639-655 | a queue that begins with two compatible samples of one timestamp is jammed |
| `BatchTurns.SilentFromBoot` | esp32-collector/components/bus_worker/bus_worker.c:737-985 | once two such samples have arrived after boot, no telemetry is ever sent, in any run |
| `BatchQueue.EqualTimestampsPair` | esp32-collector/components/bus_worker/bus_worker.c:639-655 | such a pair exists |
| `BatchQueue.IncreasingDrains` | esp32-collector/components/bus_worker/bus_worker.c:798-879 | with increasing timestamps every queue is drained in at most as many turns as it is long, and all blocks come back in order |
| `SlotTable.Handler.ReserveSlot` | esp32-collector/components/msg_handler/handler_channel_cmd_v2.c:154-213 | one pass over the table finds a held command, a free slot, or the oldest result |
| `SlotTable.Handler.Process` | esp32-collector/components/msg_handler/handler_channel_cmd_v2.c:281-365 | a received command is rejected, replayed, or dispatched, and the table and counters move accordingly |
| `SlotTable.Handler.ClaimSlot` | esp32-collector/components/msg_handler/handler_channel_cmd_v2.c:215-248 | only the first completion of a queued slot claims it |
| `SlotTable.Handler.Complete` | esp32-collector/components/msg_handler/handler_channel_cmd_v2.c:215-248 | a completion stores and publishes one final, or changes nothing |
| `SlotTable.Handler.BorrowPlan` | esp32-collector/components/msg_handler/handler_channel_cmd_v2.c:380-403 | lends a plan only from a slot still being worked on |
| `SlotLaws.ReachableTables` | esp32-collector/components/msg_handler/handler_channel_cmd_v2.c:154-248 | in every run ids and completion orders stay distinct, and accepted minus replays minus first finals is the number of active slots |
| `SlotLaws.HeldUntilReassigned` | esp32-collector/components/msg_handler/handler_channel_cmd_v2.c:215-365 | while a command holds its slot it is never dispatched again, publishes one first final, and every later final is that result, replayed |
| `SlotLaws.RepeatsAreAnswered` | esp32-collector/components/msg_handler/handler_channel_cmd_v2.c:121-182 | a held id is a repeat exactly when digest, device, channel, bytes, read size, times and plan agree: acknowledged and answered with the stored result; otherwise refused as a collision |
| `SlotLaws.Refusals` | esp32-collector/components/msg_handler/handler_channel_cmd_v2.c:320-333 | malformed, foreign and late commands are refused with their codes and change no slot |
| `SlotLaws.NewCommands` | esp32-collector/components/msg_handler/handler_channel_cmd_v2.c:154-213 | a new command gets the first free slot, or else the oldest result, or is told to come back |
| `SlotLaws.FinalsFailClosed` | esp32-collector/components/msg_handler/handler_channel_cmd_v2.c:215-248 | a completion publishes what it was given unless that exceeds 128 bytes or is missing |
| `SlotLaws.CountersCount` | esp32-collector/components/msg_handler/handler_channel_cmd_v2.c:105-119 | the counters count acceptances, refusals, replays and first finals |
| `SlotLaws.BusyIffAllActive` | esp32-collector/components/msg_handler/handler_channel_cmd_v2.c:154-213 | a new command is refused for room exactly when every slot is active |
| `SlotLaws.BorrowsOwnPlan` | esp32-collector/components/msg_handler/handler_channel_cmd_v2.c:380-403 | over every run a plan is lent from the moment its command holds a slot until its first final is published, never after, and it is that command's own |
| `SlotLaws.VictimIsOldest` | esp32-collector/components/msg_handler/handler_channel_cmd_v2.c:154-213 | the slot given away holds the result completed first, and never an active command |
| `SlotLaws.ReplayWindow` | esp32-collector/components/msg_handler/handler_channel_cmd_v2.c:154-213 | a result stays replayable through a run exactly as long as the slots ahead of it last |
| `SlotLaws.WindowIsExact` | esp32-collector/components/msg_handler/handler_channel_cmd_v2.c:154-213 | when no queue refuses, that is exactly the number of further admissions |
| `SlotLaws.FreshWindow` | esp32-collector/components/msg_handler/handler_channel_cmd_v2.c:215-248 | once a result is published while q commands are active, the slots given away before it are the slot count less one less q |
| `SlotLaws.PublishedWindow` | esp32-collector/components/msg_handler/handler_channel_cmd_v2.c:151-248 | such a result survives a run without refused dispatches, unchanged, exactly when at most slot count less one less q commands are admitted |
| `ConfigTransaction.PreflightCovers` | esp32-collector/main/config_apply_transaction.c:62-76 | the default preflight need is the largest single step need |
| `ConfigTransaction.GatesAsk` | esp32-collector/main/config_apply_transaction.c:237-330 | what the gate in front of each step asks for, in bytes |
| `ConfigTransaction.PreflightAsks` | esp32-collector/main/config_apply_transaction.c:62-76 | the preflight gate asks for its own need, or else for every step's |
| `ConfigTransaction.CommittedCalls` | esp32-collector/main/config_apply_transaction.c:206-327 | the callbacks of a committed transaction, in order |
| `ConfigTransaction.GatesInFront` | esp32-collector/main/config_apply_transaction.c:237-327 | every forward callback that takes memory comes right behind its own gate |
| `ConfigTransaction.RestoredCalls` | esp32-collector/main/config_apply_transaction.c:110-156 | the callbacks of a rollback that restores, in order |
| `ConfigTransaction.Transaction.CanStart` | esp32-collector/main/mem_guard.c:115-120 | the gate passes when the largest block covers both the need and the floor |
| `ConfigTransaction.Transaction.GatedStep` | esp32-collector/main/config_apply_transaction.c:237-252 | a step refused by the gate or failing ends the forward half |
| `ConfigTransaction.Transaction.Forward` | esp32-collector/main/config_apply_transaction.c:237-327 | the forward half follows the fixed order, stops at its first failure, and publishes the manifest last |
| `ConfigTransaction.Transaction.LogAndCommit` | esp32-collector/main/config_apply_transaction.c:301-327 | a refused log stream is skipped, a failed one is not; commit comes last |
| `ConfigTransaction.Transaction.RestoreBase` | esp32-collector/main/config_apply_transaction.c:125-138 | DMA and peripherals are put back in that order, the peripherals even after a DMA failure, and a failure is remembered |
| `ConfigTransaction.Transaction.RestoreBuses` | esp32-collector/main/config_apply_transaction.c:139-148 | the old buses are put back behind their gate, the old scheduler starts only if nothing failed so far |
| `ConfigTransaction.Transaction.Rebuild` | esp32-collector/main/config_apply_transaction.c:125-148 | a rollback remembers failures, still rebuilds the later parts, and starts the old scheduler only while nothing failed |
| `ConfigTransaction.Transaction.Rollback` | esp32-collector/main/config_apply_transaction.c:110-156 | restored exactly when every step succeeded; nothing follows an unconfirmed stop; the safe state is entered last and exactly when something failed |
| `ConfigTransaction.Transaction.Admit` | esp32-collector/main/config_apply_transaction.c:198-205 | every refusal before the transaction begins makes no callback; admission leaves the exact opening trace |
| `ConfigTransaction.Transaction.Enter` | esp32-collector/main/config_apply_transaction.c:198-219 | before prepare nothing of the runtime is touched |
| `ConfigTransaction.Transaction.Execute` | esp32-collector/main/config_apply_transaction.c:193-339 | atomicity for every failure pattern and memory reading: the outcome, the final runtime and the exact step trace, of a refusal, the forward half and every way a rollback can turn out, and the gate held exactly when fatal |
| `UartReceive.Boundary` | esp32-collector/components/bus_worker/include/bus_rx_boundary.h:44-50 | bytes are handed over exactly when a full declared or fixed length is buffered and the head is not a length-less control command |
| `UartReceive.Channel.EmitReadyChunks` | esp32-collector/components/bus_worker/bus_worker.c:1812-1844 | hands over complete chunks until none is left |
| `UartReceive.Channel.RxAppend` | esp32-collector/components/bus_worker/bus_worker.c:1907-1944 | reads the driver dry; a batch that does not fit marks the frame as overflowed |
| `UartReceive.Channel.EmitFrame` | esp32-collector/components/bus_worker/bus_worker.c:1958-2063 | the single writer that closes a frame; right after it there is nothing to close |
| `UartReceive.Channel.HandleEvent` | esp32-collector/components/bus_worker/bus_worker.c:2195-2259 | every driver event outside a batch plan |
| `UartReceive.Channel.ExpireState` | esp32-collector/components/bus_worker/bus_worker.c:2261-2324 | idle completion, then the response timeout |
| `ReceiveFrames.NoWholeFrameWaits` | esp32-collector/components/bus_worker/bus_worker.c:1812-1944 | over every run, once bytes have been read or a hardware boundary has come no whole frame waits: fewer bytes than the head declares, or than 512 |
| `ReceiveFrames.StepSettles` | esp32-collector/components/bus_worker/bus_worker.c:1907-2258 | which events leave no whole frame waiting, and the one that can |
| `ReceiveFrames.CommandOverWaiting` | esp32-collector/components/bus_worker/bus_worker.c:1812-1844 | ten waiting bytes and a command of eight |
| `ReceiveFrames.ReadyCutsRight` | esp32-collector/components/bus_worker/bus_worker.c:1812-1844 | everything handed over while bytes are read has the declared length, or 512 |
| `ReceiveFrames.EverythingSaid` | esp32-collector/components/bus_worker/bus_worker.c:1812-2324 | over every run: no success with fewer bytes than declared, no failure with bytes, and the known codes only |
| `ReceiveFrames.ClosesAs` | esp32-collector/components/bus_worker/bus_worker.c:1958-2060 | how a frame closes: overflow, short read, chunked end, delivery |
| `ReceiveFrames.QuietLineCloses` | esp32-collector/components/bus_worker/bus_worker.c:2086-2099 | a line quiet for 2 ms closes the frame, unless a hardware boundary is on its way |
| `ReceiveFrames.TickTimesOut` | esp32-collector/components/bus_worker/bus_worker.c:2261-2325 | a late command fails with code 1 and its bytes are dropped; otherwise a tick does nothing |
| `ReceiveFrames.EventsClose` | esp32-collector/components/bus_worker/bus_worker.c:2147-2258 | the hardware boundary closes, an overrun drops and marks |
| `ReceiveLaws.EveryRun` | esp32-collector/components/bus_worker/bus_worker.c:1812-2324 | over every run each byte is handed over once, in order, or dropped; each command is closed once, in order; control commands are answered exactly once; reports are numbered consecutively modulo 2^32; a drop is never followed by a success |
| `ReceiveLaws.NothingLost` | esp32-collector/components/bus_worker/bus_worker.c:1812-2324 | in a run without overflow, timeout or short-read error the payloads handed over and the leftover are the bytes received |
| `ReceiveLaws.StepBooks` | esp32-collector/components/bus_worker/bus_worker.c:2147-2324 | each single event keeps those books |
| `ReceiveLaws.PassiveBurst` | esp32-collector/components/bus_worker/bus_worker.c:1907-1944 | a burst on a passive channel is lost exactly when it passes the block while the buffered bytes are no multiple of the read size |
| `ReceiveLaws.TwoBurstsLost` | esp32-collector/components/bus_worker/bus_worker.c:1907-1944 | of two bursts of 300 bytes with no idle gap every byte is dropped and none handed over |
| `BatchPlan.DecodeStepLoop` | esp32-collector/components/bus_worker/bus_worker.c:1319-1350 | the decoding loop of a step returns what the specification says |
| `BatchPlan.StepExactly` | esp32-collector/components/msg_handler/handler_channel_cmd_v2.c:250-279 | a byte string is a step exactly when it encodes its five fields, each once, in any order and within their limits |
| `BatchPlan.PlanAccepted` | esp32-collector/components/msg_handler/handler_channel_cmd_v2.c:287-297 | the handler accepts exactly plans of at most eight valid steps of at most 160 bytes and 512 in all |
| `BatchPlan.PlanLayout` | esp32-collector/components/msg_handler/handler_channel_cmd_v2.c:293-295 | each step stands behind its length, low byte first |
| `BatchPlan.SplitExactly` | esp32-collector/components/bus_worker/bus_worker.c:1443-1449 | cutting a plan into steps gives exactly the steps it was made of |
| `BatchPlan.HandlerPlansDecode` | esp32-collector/components/msg_handler/handler_channel_cmd_v2.c:287-297 | a plan the handler builds stays within its limits, and is cut and decoded into the same steps by the worker |
| `BatchExecutor.CollectSound` | esp32-collector/components/bus_worker/bus_worker.c:1352-1402 | a collected answer has the declared length, or is what arrived before the line went quiet, and fits |
| `BatchExecutor.CollectDecides` | esp32-collector/components/bus_worker/bus_worker.c:1352-1402 | an answer is decided the first time it can be: error, declared length, quiet line, timeout |
| `BatchExecutor.EnvelopeLayout` | esp32-collector/components/bus_worker/bus_worker.c:1456-1469 | the bytes of a result: number of steps, then kind, length and answer of each |
| `BatchExecutor.GoesMeans` | esp32-collector/components/bus_worker/bus_worker.c:1450-1469 | when a step goes, and what its reply is |
| `BatchExecutor.EnvelopeParses` | scripts/esp32_simulator.py:285-287 | a result parses back to exactly its kinds and answers, and no other list has the same bytes |
| `BatchExecutor.SuccessShows` | esp32-collector/components/bus_worker/bus_worker.c:1442-1475 | a batch that succeeds ran every step, and its result is the replies in order |
| `BatchExecutor.StepsSucceed` | esp32-collector/components/bus_worker/bus_worker.c:1442-1475 | a batch all of whose steps go succeeds with exactly those replies and transmits every step in order |
| `BatchExecutor.FailureNamesStep` | esp32-collector/components/bus_worker/bus_worker.c:1442-1480 | a failure carries the class and the number of the first step that did not go; the steps before it were transmitted |
| `BatchExecutor.NeverABadStep` | esp32-collector/components/bus_worker/bus_worker.c:1443-1449 | a plan accepted by the handler never fails as malformed |
| `BatchExecutor.Executor.RunStep` | esp32-collector/components/bus_worker/bus_worker.c:1447-1470 | one step: transmit, collect, write the item behind the result so far |
| `BatchExecutor.Executor.ExecuteBatch` | esp32-collector/components/bus_worker/bus_worker.c:1416-1481 | the whole executor: result or error code, length 0 on failure, and the waiter and plan flags cleared on every exit |
| `BatchCommand.LendsItsSteps` | esp32-collector/components/msg_handler/handler_channel_cmd_v2.c:287-403 | until the first final the worker is lent exactly the length-prefixed steps the command's plan was built from, which it cuts back into those steps; afterwards nothing |
| `BatchCommand.SuccessIsEnvelope` | esp32-collector/components/bus_worker/bus_worker.c:1416-1480 | the result of a batch run from a handler-built plan is the envelope of one reply for each step |
| `BatchCommand.BatchFinal` | esp32-collector/components/msg_handler/handler_channel_cmd_v2.c:215-248 | a batch carried out in full is published with its replies exactly when the result fits the slot's 128 bytes, otherwise as an overflow |
| `BatchCommand.OverflowHappens` | esp32-collector/components/msg_handler/handler_channel_cmd_v2.c:215-248 | it happens: two reads of 61 bytes, both answered, end as an overflow with the first command after boot |
| `UartRegistry.Registry.SelectPort` | esp32-collector/components/bus_dma/bus_dma.c:679-728 | the choice of a controller: asked for, derived, idle, or the number of the first free slot |
| `UartRegistry.Registry.InstallNew` | esp32-collector/components/bus_dma/bus_dma.c:566-673 | registers a new driver, or deletes it again when the registry is full |
| `UartRegistry.Registry.AcquirePort` | esp32-collector/components/bus_dma/bus_dma.c:731-879 | a lease by sharing, reconfiguring or installing |
| `UartRegistry.Registry.PreinstallPort` | esp32-collector/components/bus_dma/bus_dma.c:884-953 | installs without leasing |
| `UartRegistry.Registry.ReleaseLease` | esp32-collector/components/bus_dma/bus_dma.c:1035-1055 | gives a lease back and keeps the driver |
| `UartRegistry.Registry.TeardownPort` | esp32-collector/components/bus_dma/bus_dma.c:959-981 | deletes the driver of a controller nobody leases |
| `RegistryLaws.StepSane` | esp32-collector/components/bus_dma/bus_dma.c:391-981 | every step keeps: controllers registered once, the reference count is the number of live channels, leased exactly when there are any |
| `RegistryAnswers.JoinsItsLine` | esp32-collector/components/bus_dma/bus_dma.c:782-802 | a request with the pins and rate of a resident driver shares it, unless it insists on another controller |
| `RegistryAnswers.PreferredResident` | esp32-collector/components/bus_dma/bus_dma.c:804-833 | a resident controller asked for by number is reconfigured unless it is leased |
| `RegistryAnswers.PreferredNew` | esp32-collector/components/bus_dma/bus_dma.c:683-697 | a controller asked for by number that is not resident is installed if it exists and may be used |
| `RegistryAnswers.DerivedPort` | esp32-collector/components/bus_dma/bus_dma.c:699-705 | pins that belong to a controller get that one, unless it runs otherwise |
| `RegistryAnswers.TakesIdle` | esp32-collector/components/bus_dma/bus_dma.c:706-713 | other pins get the first idle driver |
| `RegistryAnswers.TakesSlotNumber` | esp32-collector/components/bus_dma/bus_dma.c:714-721 | with none idle, the controller numbered like the first free slot |
| `RegistryAnswers.Refused` | esp32-collector/components/bus_dma/bus_dma.c:722-726 | bad pins, and no room |
| `RegistryAnswers.PreparesNothing` | esp32-collector/components/bus_dma/bus_dma.c:884-936 | nothing is installed when something resident can serve |
| `RegistryAnswers.PreparesDriver` | esp32-collector/components/bus_dma/bus_dma.c:937-953 | otherwise as leasing would, without a lease |
| `RegistryAnswers.GivesBack` | esp32-collector/components/bus_dma/bus_dma.c:1035-1055 | a lease given back leaves the driver, idle after the last one |
| `RegistryAnswers.Removes` | esp32-collector/components/bus_dma/bus_dma.c:959-981 | only a driver nobody leases is deleted |
| `RegistryLaws.PreinstallOnlyAdds` | esp32-collector/components/bus_dma/bus_dma.c:884-953 | preinstalling never touches a resident driver or a lease |
| `RegistryLaws.DeletedOnlyUnleased` | esp32-collector/components/bus_dma/bus_dma.c:959-981 | a driver is deleted only by a teardown of an unleased controller, or when it could not be registered |
| `RegistryLaws.AgreesIff` | esp32-collector/components/bus_dma/bus_dma.c:679-728 | a request leaves every channel's controller as it was asked for exactly when it is not a dynamic request whose free slot index is a resident controller |
| `RegistryLaws.SharersAgree` | esp32-collector/components/bus_dma/bus_dma.c:731-879 | in every run without such a request, channels on one controller asked for the same pins and baud rate |
| `RegistryLaws.StolenInTwo` | esp32-collector/components/bus_dma/bus_dma.c:712-719 | a run of two requests after which two channels hold one controller set up for the second |
| `TxArena.Arena.BeginTx` | esp32-collector/main/config_tx_arena_impl.h:76-86 | opens a transaction and arms the canary |
| `TxArena.Arena.EndTx` | esp32-collector/main/config_tx_arena_impl.h:88-109 | a damaged canary latches the arena |
| `TxArena.Arena.AllocBlock` | esp32-collector/main/config_tx_arena_impl.h:111-125 | hands out an aligned block, or fails with nothing changed |
| `TxArena.StepPacked` | esp32-collector/main/config_tx_arena_impl.h:58-125 | every call keeps the blocks of a transaction one after another up to the cursor |
| `TxArena.RunPacked` | esp32-collector/main/config_tx_arena_impl.h:58-125 | so does every run; a booted arena starts that way (`Booted`) |
| `TxArena.BlocksApart` | esp32-collector/main/config_tx_arena_impl.h:111-125 | blocks are 16-byte aligned, pairwise disjoint and clear of the canary |
| `TxArena.BlocksApartInEveryRun` | esp32-collector/main/config_tx_arena_impl.h:58-125 | after every run from boot; the bytes asked for lie below the canary exactly when the size did not wrap |
| `TxArena.SlotCovers` | esp32-collector/main/config_tx_arena_impl.h:115-115 | a slot holds what was asked for exactly when the aligned size does not wrap |
| `TxArena.AllocMeans` | esp32-collector/main/config_tx_arena_impl.h:111-125 | a request is granted at the cursor exactly when, rounded up to 16 bytes, it fits below 4092 |
| `TxArena.HighIsPeak` | esp32-collector/main/config_tx_arena_impl.h:111-125 | the high-water mark is the highest the cursor has been |
| `TxArena.WrappedSharesAddress` | esp32-collector/main/config_tx_arena_impl.h:115-122 | a size that wraps is granted without room: the next block has the same address |
| `TxArena.HonestRunsEndWell` | esp32-collector/main/config_tx_arena_impl.h:76-125 | clients that stay inside their blocks never damage the canary, over any run |
| `TxArena.HonestFromBoot` | esp32-collector/main/config_tx_arena_impl.h:76-125 | from boot, such clients never trip the latch |
| `TxArena.FaultSticks` | esp32-collector/main/config_tx_arena_impl.h:58-125 | once the damage is noticed, each later init, begin and alloc of any run fails |
| `TxArena.DamageNoticedAtEnd` | esp32-collector/main/config_tx_arena_impl.h:88-125 | whatever was written over the memory, no allocation of the transaction notices it, and the end fails and latches exactly when the canary is not intact |
| `TxArena.DamageOutsideCovered` | esp32-collector/main/config_tx_arena_impl.h:76-86 | damage outside a transaction is covered up by the next begin |
| `TxArena.Reproducible` | esp32-collector/main/config_tx_arena_impl.h:111-125 | equal requests in two transactions get equal addresses |
| `TxArena.CanReserveExact` | esp32-collector/main/config_tx_arena_impl.h:132-139 | the capacity predicate is true exactly when the next transaction's first allocation succeeds |
| `Handshake.LinkTask.Poll` | esp32-collector/main/device_link_wiring.c:1176-1251 | one turn of the link task |
| `Handshake.Decisions` | esp32-collector/main/device_link_handshake.c:23-75 | when to note, to send, to be done |
| `Handshake.SentOnlyWaiting` | esp32-collector/main/device_link_handshake.c:66-72 | a Hello goes out only while waiting and never on an acknowledgement |
| `Handshake.NotedIff` | esp32-collector/main/device_link_handshake.c:22-57 | a handshake is noted exactly on an accepted acknowledgement outside READY |
| `Handshake.GenerationSends` | esp32-collector/main/device_link_wiring.c:1187-1241 | within one stay in the waiting state the Hello goes out at the first turn that can carry it, once, provided a nonce was obtained on entry |
| `Handshake.OnePerGeneration` | esp32-collector/main/device_link_wiring.c:1187-1241 | over any run two Hellos are separated by a new entry into the waiting state |
| `CrcMessages.ModbusCrc16` | scripts/uart0_bms_rain_simulator.py:145-155 | the byte loop computes the register of the message's bits |
| `CrcMessages.Crc32Span` | esp32-collector/main/crash_diag.c:79-96 | the mask form of the CRC-32 computes the complement of its register |
| `CrcPolynomials.GeneratorOf` | esp32-collector/main/crash_diag.c:84-84 | the generators, power by power, from the register after a single 1: 0xEDB88320 and 0xA001 |
| `CrcPolynomials.RegisterIsRemainder` | esp32-collector/main/crash_diag.c:79-87 | the register a message leaves is the remainder of its polynomial by the generator, and nothing else is |
| `CrcPolynomials.Crc32IsRemainder` | esp32-collector/main/crash_diag.c:89-96 | the CRC-32 is that remainder, started from and ended with all ones inverted |
| `CrcPolynomials.ModbusIsRemainder` | scripts/uart0_bms_rain_simulator.py:145-155 | the CRC-16 is that remainder, started from all ones |
| `Crc.RoundDown` | scripts/uart0_bms_rain_simulator.py:150-154 | no information is lost by a round |
| `Crc.RoundUp` | scripts/uart0_bms_rain_simulator.py:150-154 | every register value is the result of a round: rounds are bijections |
| `Crc.FeedXor` | scripts/uart0_bms_rain_simulator.py:145-155 | the difference of two registers depends only on the difference of the inputs |
| `Crc.BurstDetected` | scripts/uart0_bms_rain_simulator.py:145-155 | every burst of bit errors no longer than the register is detected, at any bit position |
| `CrcMessages.WindowDetected` | esp32-collector/host_tests/crash_diag_codec_tests.c:43-54 | messages that differ only inside 2 (CRC-16) or 4 (CRC-32) neighbouring bytes have different registers |
| `CrcMessages.ChecksDiffer` | esp32-collector/main/crash_diag.c:89-96 | and different checks as computed |
| `CrcMessages.IntactIff` | scripts/uart0_bms_rain_simulator.py:158-163 | of all two-byte trailers exactly the CRC, low byte first, leaves the register at zero |
| `CrcMessages.OddErrorsDetected` | scripts/uart0_bms_rain_simulator.py:145-155 | the CRC-16 notices every odd number of bit errors |
| `CrcMessages.ReadResponse` | scripts/uart0_bms_rain_simulator.py:158-170 | a register reply is intact and carries address and value |
| `CrcMessages.WriteResponse` | scripts/uart0_bms_rain_simulator.py:173-177 | a write echo is intact and carries address, register and value |
| `Deframer.Slave.Process` | scripts/uart_slave_sim.py:160-192 | the frame loop over the buffered bytes, with its counters |
| `Deframer.Slave.Mark` | scripts/uart_slave_sim.py:215-222 | every request is counted, the first ones logged |
| `Deframer.SplitIndependent` | scripts/uart_slave_sim.py:153-192 | any split of a stream into reads gives the same requests, malformed bytes and leftover as one read |
| `Deframer.ScanExactly` | scripts/uart_slave_sim.py:160-192 | the one way a stream can be cut into requests, bytes at which none starts, and what may still become one |
| `Deframer.ScanConserves` | scripts/uart_slave_sim.py:160-192 | no byte is invented, reordered or lost |
| `Deframer.Leftover` | scripts/uart_slave_sim.py:160-192 | consumed bytes are request bytes plus malformed bytes; at most 261 bytes, or no line end, are left |
| `Deframer.TakesAll` | scripts/uart_slave_sim.py:160-192 | well-formed requests one after another are found exactly |
| `Deframer.Resynchronises` | scripts/uart_slave_sim.py:161-177 | bytes that cannot start a request are dropped one by one and every request after them is found |
| `BmsSimulator.ResponseParses` | scripts/uart0_bms_rain_simulator.py:26-44 | every reply is a sound frame that carries its command and padded data |
| `BmsAnswers.ReplyLayout` | scripts/uart0_bms_rain_simulator.py:26-44 | the bytes of a reply |
| `BmsAnswers.WritesMean` | scripts/uart0_bms_rain_simulator.py:296-430 | what each plain write changes and answers |
| `BmsAnswers.ProtectedWritesMean` | scripts/uart0_bms_rain_simulator.py:337-369 | what each write in factory mode changes and answers |
| `BmsAnswers.StoredReadsMean` | scripts/uart0_bms_rain_simulator.py:431-482 | stored values read back as they are |
| `BmsAnswers.BasicMeans` | scripts/uart0_bms_rain_simulator.py:54-78 | the basic report, byte by byte |
| `BmsAnswers.CellsMean` | scripts/uart0_bms_rain_simulator.py:81-86 | the cell report |
| `BmsAnswers.ComprehensiveMeans` | scripts/uart0_bms_rain_simulator.py:94-133 | the comprehensive report, byte by byte |
| `BmsSimulator.RepliesSound` | scripts/uart0_bms_rain_simulator.py:294-482 | every reply to every request is sound or one of the two short error frames |
| `BmsSimulator.HandleKeeps` | scripts/uart0_bms_rain_simulator.py:294-482 | the parameter blocks keep their length and a valid CRC; they and the serial number change only by an accepted write in factory mode |
| `BmsSimulator.RunKeeps` | scripts/uart0_bms_rain_simulator.py:294-482 | so over every run |
| `BmsSimulator.WriteStores` | scripts/uart0_bms_rain_simulator.py:337-357 | a block is stored exactly in factory mode with the right length and CRC |
| `BmsSimulator.ReadsBackLastWrite` | scripts/uart0_bms_rain_simulator.py:467-478 | a block reads back exactly as last written, whatever came in between |
| `BmsSimulator.OneFetStatus` | scripts/uart0_bms_rain_simulator.py:431-456 | both reports show one FET status, the complement of the last policy written |
| `BmsSimulator.CrashesIff` | scripts/uart0_bms_rain_simulator.py:431-475 | the requests that end the simulator, exactly, for all command-line options |
| `BmsSimulator.CountsReadRaisesIff` | scripts/uart0_bms_rain_simulator.py:136-142 | reading the protection counts after any run raises exactly when the restart count did not fit 16 bits at the start and no reset was written |
| `BmsSimulator.SnReadBackIff` | scripts/uart0_bms_rain_simulator.py:358-369 | a written serial number reads back exactly when it is ASCII; otherwise reading it raises |
| `BmsSimulator.Simulator.StoreBlock` | scripts/uart0_bms_rain_simulator.py:337-357 | the write path of the parameter blocks with its checks in order |
| `BmsSimulator.Simulator.HandleRequest` | scripts/uart0_bms_rain_simulator.py:294-482 | the request handler as it updates the simulator |
| `SequenceLoss.Analyze` | scripts/uart_real_soak.py:362-379 | the accounting loop keeps for every channel the statistics of its own reports |
| `SequenceLoss.LossExact` | scripts/uart_real_soak.py:362-379 | received plus missing is what was sent between the first and the last report, across wraparound, exactly when no gap reaches 2^32 |
| `SequenceLoss.FiguresAdd` | scripts/uart_real_soak.py:362-379 | reports, failures and bytes add up over any two parts of the data |
| `SequenceLoss.OneReport` | scripts/uart_real_soak.py:362-379 | what a single report contributes |
| `SequenceLoss.GapsExact` | scripts/uart_real_soak.py:362-379 | the gaps counted are the places at which numbers were skipped |

## Left out

- BatchQueue.Reporter.TryDataBatch: payload bytes are values inside the queued descriptors; who owns the block they live in is modelled, overwriting a block that is in use is not. The critical and emergency queues and pools are not modelled.
- BatchTurns.JammedForever: the server's batch capability and the presence of the encoder stay as they are during a run; a server that withdraws the capability would let the samples go one at a time.
- BatchQueue.Reporter.Publish: the transport below the encoder always accepts a frame.
- ReceiveLaws.EveryRun: the hand-over to the report and control-final queues always succeeds; in the source a full queue drops what is handed over and logs it.
- UartReceive.Channel.HandleEvent: counters, log limits and the scheduler's outcome notifications are not modelled, nor the branch for a channel owned by a batch plan; discarding commands during a reconfiguration is left out.
- BatchExecutor.CollectSound: the receive hand-off appears as what the collecting loop sees at each wake-up; filling it from driver events, delays and the watchdog are left out.
- SlotTable.Handler.Process: the command arrives as a value; parsing its scalar fields from the frame is not modelled, only its batch steps are (`BatchPlan`). The event sequence number of a response is left out.
- ConfigTransaction.Transaction.Execute: what a callback does to the runtime is abstracted to which configuration its part is left in, and a failing callback leaves its part half done.
- UartRegistry.Registry.AcquirePort: event queues, buffer sizes, fixed-pin controllers and the registry-corruption path beyond its error are not modelled; the chip's pin tables are the inputs `derived` and `pinsOk`.
- TxArena.Arena.InitArena: where the block comes from is the input `memOk`; the fault-clearing hook that exists only for host tests is left out.
- Handshake.LinkTask.Poll: the session below (connecting, backoff) is the sequence of polled states; building and framing the Hello is the input `sends`.
- BmsSimulator.Simulator.HandleRequest: measured values arrive already scaled to integers, so floating-point scaling is not modelled; the loop that separates battery and rain-gauge requests in one read is left out, and the request frame is always present, as both callers pass it.
- CrcMessages.ReadResponse: the register value is a 16-bit number; scaling the rainfall is left out.
- Deframer.Slave.Process: the answers written back, per-command counts and timestamps are not modelled.
- SequenceLoss.Analyze: latency, rates and console parsing are left out.
- ManifestRebuild.RebuildFrame: edit values are natural numbers; a negative one makes the script's encoder loop for ever. Text in the manifest (ids, hardware names) stays bytes.
- ManifestLaws.RebuildCommutes: the channel view keeps a bus configuration given as a number, where the script's display of it would raise.
- Wire.NextStrictAt: lengths are unbounded numbers, so the 32-bit sum of position and length is not modelled; null arguments are not modelled either.
- The crash record's storage, the serial, TCP and MQTT plumbing, SPI, I2C, NVS, pin tables, frontend and backend are not part of this model: they would add only easy members or hardware facts.
- The BMP280 compensation formulas are floating point without an exact specification.
- Real time, threads and semaphores are inputs and atomic steps; interleavings inside one action of the source are not modelled, except that completing a slot is two steps and that producers interleave with every step of the report task (`BatchTurns`); there the peek and the receive of one sample, by the queue's only reader, are one step, and so are taking a block and queueing the sample in it.
