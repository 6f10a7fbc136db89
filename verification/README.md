# Verified model of the scuffle media and concurrency crates

A Dafny 4.11 model of five parts of the repository, with proofs of the properties they exist for.

- **Batching** (`crates/batching`): `Batcher` and `DataLoader`, which merge the requests of many callers into
  shared batches. The critical sections are methods of a class with the code's own fields and loops; everything
  that runs concurrently (callers, timer turns, tasks waiting for permits, executors and fetchers, the publication
  of results, waking callers) is a step system, and the properties hold for every interleaving of the steps.
- **AMF0** (`crates/amf0`): the recursive encoder and the decoder with one marker of look-ahead, as classes, against
  functions on "the pending marker and the remaining bytes".
- **Bit-level stack** (`crates/bytes-util`, `crates/expgolomb`): the bit writer and the bit reader as classes with a
  partial byte, seeking, Exp-Golomb codes, and the NAL emulation prevention transducer.
- **Configuration records** (`crates/h265/src/config.rs`, `crates/h264/src/config.rs`,
  `crates/h264/src/sps/sps_ext.rs`): clients of that stack, call by call.
- **Context shutdown** (`crates/context`): the trackers' counter, the stop flag and the notification, each touched by
  separate atomic steps.

`dafny verify dfyconfig.toml` checks the project.

## How the model is laid out

Code that updates state in place is a class or a method with loops, proved against a specification function; what the
code promises is then proved about that function.

| files | contents |
|---|---|
| `Bits`, `BitWriter`, `BitReader`, `ExpGolomb` | bit strings most significant bit first; `Written()` and `Stream()`/`Position()` are the abstract states of writer and reader |
| `Fields`, `FieldWriting` | a bit stream as a list of fields; `Encode` is the layout, `Decode` what reading yields |
| `NalEmulationPrevention` | `Stuff` and `Unstuff`, the standard's requirement `Legal`, writer and reader |
| `Hevc`, `HevcParsing`, `HevcMuxing` | layout, reading and the `mux`/`demux` calls of the HEVC record |
| `HevcBytes`, `HevcBytesParsing` | the bytes of that record, stated from the record, and the record, stated from the bytes |
| `SpsExtension`, `SpsExtensionCoding`, `BytesCursor`, `Avc`, `AvcBuilding` | the same for the SPS extension and the AVC record |
| `Amf0`, `Amf0Decoding`, `Amf0RoundTrip`, `Amf0Decoder`, `Amf0Encoder` | values and layout, decoding as functions, the round trip, decoder and encoder |
| `Amf0Wire`, `Amf0WireDecoding`, `Amf0WireReading` | the grammar of everything that can be decoded; the decoder accepts it, and accepts nothing else |
| `BatchTimer`, `Tally`, `Batcher`, `BatcherRuns`, `BatcherProgress`, `DataLoader`, `DataLoaderRuns`, `DataLoaderProgress` | the timer loop, counting, critical sections, interleavings, progress |
| `ContextShutdown`, `ShutdownLimits` | the shutdown protocol, and exactly what it does not promise |

## Where the code does something other than one might expect

- `HEVCDecoderConfigurationRecord::mux` and `AVCDecoderConfigurationRecord::build` succeed on counts and lengths that do
  not fit (`as u8`, `as u16`) and on NAL unit types or a length size that `demux` refuses. `MuxThenDemux` and
  `BuildThenParse` therefore state the exact set of records that come back; `MuxedButRefused` is one that does not.
- `SpsExtended::build` writes scaling lists of any length, while `parse` stops at the first zero scale or at a full list.
  `RoundTripIffWellFormed` says for which extensions the two agree; `ListBehindZeroScale` is one for which they do not.
- `AVCDecoderConfigurationRecord::parse` takes bytes behind a record for an extended configuration when the profile may
  have one and the record has none. `Avc.RecordBack` says what comes out in that case, `FollowedRecordIsMisread` gives a
  record and four bytes.
- The unaligned path of `BitReader::read` fails where the aligned path returns a short count (`BitReader.Read`).
- The comment on `BitReader::align` calls it equivalent to reading `8 - bit_pos` bits; an aligned reader stays where it is
  (`BitReader.Align`).
- The probe for an end marker behind an ECMA array takes a byte off the stream that a following key does not see
  (`EcmaArrayProbe`).
- A `done` that was woken by a parent's cancellation, without `stop`, can miss its notification; a run in which it does is
  `WakeUpLostWithoutStop`, and `CanBeLostIffNotStopped` says when it can.
- `shutdown` may return while a context made from the handler is alive; a run in which it does is
  `ShutdownReturnsEarly`, and `OutlivesIffLate` says for which contexts that is possible.

## Model

| member | source | states |
|---|---|---|
| DataLoaderRuns.LoadManyAgreesAlways | crates/batching/src/dataloader.rs:154-209 | in every run in which the fetcher's answers agree with a function on the keys asked for, a completed `load_many` is that function restricted to its keys, or an error; it is an error iff a batch it waited for produced no map |
| DataLoaderRuns.LoadManyAgrees | crates/batching/src/dataloader.rs:199-208 | the same in every state that satisfies the invariant |
| DataLoaderRuns.DispatchIsSafe | crates/batching/src/dataloader.rs:117-131 | in every run: the current batch holds 1 to max(1, batch_size) - 1 keys, every dispatched batch 1 to max(1, batch_size), and tasks with a permit and free permits add up to max(1, concurrency) |
| DataLoaderRuns.DispatchedFullOrOld | crates/batching/src/dataloader.rs:163-236 | batching happens: in every run, a dispatched batch holds exactly max(1, batch_size) keys, or a turn of the timer took it at an age of at least `delay` |
| DataLoaderRuns.DispatchedInTime | crates/batching/src/dataloader.rs:163-236 | the age bound from the call: in every run, all keys of a `load_many` called more than `delay` plus the lateness of the loop ago are in batches that have been dispatched |
| DataLoaderRuns.AlwaysInv | crates/batching/src/dataloader.rs:117-297 | every interleaving keeps batches, permits, result cells, callers' waiters and the timer's schedule consistent, under the sizes the constructor was given |
| DataLoaderRuns.StepKeeps | crates/batching/src/dataloader.rs:154-297 | each single step keeps that invariant |
| DataLoaderRuns.StepAgrees | crates/batching/src/dataloader.rs:284-297 | each step with a faithful fetcher keeps every published map in agreement with the function, also while the keys of the current batch grow |
| DataLoaderRuns.PublishOnce | crates/batching/src/dataloader.rs:284-297 | setting a result cell never finds it set; no step changes a set cell; waiters are released once, after the permit was returned |
| DataLoaderRuns.ReleasedIsSetUnlessPanic | crates/batching/src/dataloader.rs:252-297 | in every run, a released cell is empty iff its fetcher panicked: on every normal completion it was set before |
| DataLoaderProgress.WorkDecreases | crates/batching/src/dataloader.rs:154-297 | every step other than a new call, the passing of time or an idle turn of the timer decreases a natural number |
| DataLoaderProgress.UnfinishedCallsCanProceed | crates/batching/src/dataloader.rs:199-298 | as long as a call is incomplete a step other than a new call or a panic is enabled that brings the system closer to rest: a progress step, or, when the batch it waits for is current, a turn of the timer or time up to it |
| DataLoaderRuns.AgeBound | crates/batching/src/dataloader.rs:219-236 | over every run, a current batch was created at most `delay` plus the lateness of the loop ago, and the next turn is scheduled in time |
| DataLoaderRuns.LoadOne | crates/batching/src/dataloader.rs:144-146 | in every run with a faithful fetcher, the map of a completed call for one key holds exactly that key's value, or nothing |
| DataLoaderRuns.FetchedIffExpected | crates/batching/src/dataloader.rs:167-197 | in every run, a batch holds exactly the keys that some caller expects from it |
| DataLoaderRuns.StepWanted | crates/batching/src/dataloader.rs:167-197 | no step makes a batch hold a key that nobody expects from it |
| DataLoaderProgress.RunsComeToRest | crates/batching/src/dataloader.rs:154-297 | a run without new calls, with any passing of time and idle turns of the timer in it, has a bounded number of other steps |
| DataLoaderProgress.Completes | crates/batching/src/dataloader.rs:154-298 | from every state there is a run without new calls behind which every call is complete, also calls for fewer keys than the batch size |
| DataLoaderProgress.AtRest | crates/batching/src/dataloader.rs:199-298 | when none of them is enabled and no batch is current, every call is complete |
| DataLoading.AddKeysKeeps | crates/batching/src/dataloader.rs:167-197 | behind the critical section the waiters expect exactly the call's keys, each from a batch that fetches it; sizes are in bounds and no batch lost a key |
| DataLoading.AddKeysFull | crates/batching/src/dataloader.rs:193-195 | every batch that the critical section spawns holds exactly `batch_size` keys |
| DataLoading.AddKeysArithmetic | crates/batching/src/dataloader.rs:167-196 | with s keys pending and n new ones, pairwise distinct, (s + n) / size full batches are spawned and (s + n) % size keys stay |
| DataLoading.AddKeysCreation | crates/batching/src/dataloader.rs:172-175 | a batch that stays current keeps its creation time, one that becomes current has the time of the call |
| DataLoading.AddKeyKeeps | crates/batching/src/dataloader.rs:171-196 | one key, with the flag `new_batch` |
| DataLoading.AddKeys | crates/batching/src/dataloader.rs:167-197 | `waiters.last_mut().unwrap()` cannot fail |
| DataLoading.JoinGrows | crates/batching/src/dataloader.rs:172-195 | the current batch or a new one gains the key, no other batch changes, and sizes stay in bounds; that a batch is spawned only when full is `AddKeysFull`, when it was created `AddKeysCreation` |
| DataLoading.TakeKeeps | crates/batching/src/dataloader.rs:229-232 | dispatching by the timer keeps all batches and their numbers |
| DataLoading.DataLoader.LoadMany | crates/batching/src/dataloader.rs:163-197 | the loop over the keys computes `AddKeys`, with the waiters and the flag `new_batch`; `AddKeysFull`, `AddKeysCreation` and `AddKeysKeeps` say what that is |
| DataLoading.DataLoader.LoopTurn | crates/batching/src/dataloader.rs:223-235 | one turn of the timer loop |
| DataLoading.DataLoader.constructor | crates/batching/src/dataloader.rs:117-131 | the batch size is at least one |
| BatcherRuns.ResultsAlign | crates/batching/src/batch.rs:214-245 | in every run, whatever the executor responds: result `i` of a call is the response that was sent for the place in a batch that holds the call's own item `i`, and is `None` iff the sender at that place was dropped unused |
| BatcherRuns.ChannelUsedOnce | crates/batching/src/batch.rs:25-29 | a channel changes once, by a response or a drop for the place that holds it |
| BatcherRuns.ResultDelivered | crates/batching/src/batch.rs:239-242 | a result is what stands on the channel of the call's own item |
| BatcherRuns.ResultsAreAnswers | crates/batching/src/batch.rs:214-245 | an executor that answers by a function of the request: batched execution agrees with executing each request alone |
| BatcherRuns.ExactlyOnce | crates/batching/src/batch.rs:214-291 | every submitted request sits at exactly one place of exactly one batch |
| BatcherRuns.Conservation | crates/batching/src/batch.rs:214-291 | over every run the batches in order hold the submitted requests in order, on consecutive channels |
| BatcherRuns.DispatchIsSafe | crates/batching/src/batch.rs:187-201 | in every run: the current batch holds 1 to max(1, batch_size) - 1 requests, every dispatched batch 1 to max(1, batch_size), and executing tasks and free permits add up to max(1, concurrency) |
| BatcherRuns.DispatchedFullOrOld | crates/batching/src/batch.rs:214-272 | batching happens: in every run, a dispatched batch holds exactly max(1, batch_size) requests, or a turn of the timer took it at an age of at least `delay` |
| BatcherRuns.DispatchedInTime | crates/batching/src/batch.rs:214-272 | the age bound from submission: in every run, a request submitted more than `delay` plus the lateness of the loop ago is in a batch that has been dispatched |
| BatcherRuns.AlwaysInv | crates/batching/src/batch.rs:187-291 | every interleaving keeps batches, permits, numbering, delivered results and the schedule consistent, under the sizes the constructor was given |
| BatcherRuns.StepKeeps | crates/batching/src/batch.rs:214-291 | each single step keeps that invariant |
| BatcherProgress.RunsComeToRest | crates/batching/src/batch.rs:214-291 | a run without new calls, with any passing of time and idle turns of the timer in it, has a bounded number of other steps |
| BatcherProgress.Completes | crates/batching/src/batch.rs:214-291 | from every state there is a run without new calls behind which every call is complete, also calls for fewer requests than the batch size |
| BatcherProgress.AtRest | crates/batching/src/batch.rs:239-291 | when none of them is enabled and no batch is current, every call is complete |
| BatcherProgress.WorkDecreases | crates/batching/src/batch.rs:214-291 | every step other than a new call, the passing of time or an idle turn of the timer decreases a natural number |
| BatcherProgress.UnfinishedCallsCanProceed | crates/batching/src/batch.rs:239-291 | as long as a call is incomplete its next request is located and a step is enabled that brings the system closer to rest: for the request itself, for a task that holds a permit, or of the timer |
| BatcherRuns.AgeBound | crates/batching/src/batch.rs:255-272 | over every run, a current batch was created at most `delay` plus the lateness of the loop ago |
| Batching.PushAllArithmetic | crates/batching/src/batch.rs:218-237 | with s items pending and n new ones, (s + n) / size full batches are spawned and (s + n) % size items stay; together they are the old items followed by the new ones |
| Batching.PushAllCreation | crates/batching/src/batch.rs:224-226 | a batch that stays current keeps its creation time; one that becomes current has the time of the call and holds requests of the call only |
| Batching.PushAllKeeps | crates/batching/src/batch.rs:218-237 | sizes in bounds, and all requests in order; creation times are `PushAllCreation` |
| Batching.Batcher.ExecuteMany | crates/batching/src/batch.rs:220-237 | the loop over the requests computes `PushAll`; `PushAllArithmetic` and `PushAllCreation` say what that is |
| Batching.Batcher.LoopTurn | crates/batching/src/batch.rs:259-271 | one turn of the timer loop |
| Batching.Batcher.constructor | crates/batching/src/batch.rs:187-201 | the batch size is at least one |
| BatchTimer.TurnOnTime | crates/batching/src/batch.rs:255-272 | a turn leaves the next one scheduled no later than the current batch comes of age, and exactly then when it goes back to sleep |
| BatchTimer.DueIsOld | crates/batching/src/batch.rs:265-271 | a turn takes the current batch iff it is at least `delay` old |
| BatchTimer.AdvanceOnTime | crates/batching/src/batch.rs:257 | the schedule survives the passing of time |
| BatchTimer.CreateOnTime | crates/batching/src/batch.rs:224-226 | the schedule survives the creation or replacement of a batch between turns |
| BatchTimer.TimerComesCloser | crates/batching/src/batch.rs:255-272 | with a current batch, sleeping to the scheduled time or a turn of the loop brings its dispatch closer |
| ContextShutdown.NoLostWakeUp | crates/context/src/lib.rs:58-110 | in every reachable state the count is the number of live trackers, and a parked, un-notified `shutdown`, or any other wait that began after the stop, has a live context or a drop that is about to notify it |
| ContextShutdown.StepKeeps | crates/context/src/lib.rs:58-110 | each atomic step keeps the invariant behind `NoLostWakeUp`; what makes a waiter return is `WhyWaitersReturn` |
| ContextShutdown.ShutdownReturns | crates/context/src/lib.rs:254-291 | when all contexts are gone, the next step of a pending `shutdown`, or of another wait that began after the stop, is enabled |
| ContextShutdown.RankDecreases | crates/context/src/lib.rs:254-291 | a `shutdown` takes at most six steps of its own, and nobody sets it back |
| ContextShutdown.ShutdownWaitsForAll | crates/context/src/lib.rs:100-109 | when `shutdown`, or a `done` or `wait` that began after the stop, has returned, no context is alive, in every run in which no context was made from the handler after a drop that took the count to zero or such a wait had said that all are gone |
| ContextShutdown.WhyWaitersReturn | crates/context/src/lib.rs:100-109 | in every state and for every waiter, stopped or not: it returns only because its load found the count zero or because it was parked and notified; it parks only with a positive count, and only a drop notifies it |
| ContextShutdown.StepSealed | crates/context/src/lib.rs:58-110 | for each kind of wait: without such a context, no step says that the contexts are gone while one is alive |
| ContextShutdown.NewsIsTrue | crates/context/src/lib.rs:58-67 | the count is zero when that is first said |
| ShutdownLimits.OutlivesIffLate | crates/context/src/lib.rs:58-110 | in every reachable state and for each kind of wait: a context made from the handler now can be alive when such a wait has returned iff a drop that took the count to zero is still to notify, or one of them was told or has returned |
| ShutdownLimits.LateContextOutlives | crates/context/src/lib.rs:58-67 | the continuation in which that happens, from every such state |
| ShutdownLimits.LiveKeepsSilence | crates/context/src/lib.rs:58-110 | while a context is alive that was there before, no wait of the kind is told that the contexts are gone |
| ShutdownLimits.ShutdownReturnsEarly | crates/context/src/lib.rs:58-67 | an input: a context made between the last drop's `fetch_sub` and its load of `stopped` |
| ShutdownLimits.CanBeLostIffNotStopped | crates/context/src/lib.rs:100-109 | in every reachable state: the wake-up of a parked waiter that was not notified can still be lost iff the handler has not been stopped, or it is lost already |
| ShutdownLimits.DropsGoSilently | crates/context/src/lib.rs:58-67 | without a stop, all contexts can go without anybody being notified |
| ShutdownLimits.StoppedLosesNothing | crates/context/src/lib.rs:58-110 | after the stop, no step loses any waiter's wake-up |
| ShutdownLimits.WakeUpLostWithoutStop | crates/context/src/lib.rs:260-270 | an input: `done` after a parent's cancellation is parked with nobody left to notify it |
| Amf0EncoderModel.EncodeThenDecode | crates/amf0/src/value.rs:50-59 | every value that fits the length fields comes back, whatever stands before and behind it, leaving exactly what stands behind it and no pending marker; all others are refused |
| Amf0.FirstByte | crates/amf0/src/encoder.rs:24-124 | the marker of each kind of value: null is 05, a string is short iff its length fits 16 bits |
| Amf0.PayloadBytes | crates/amf0/src/encoder.rs:24-124 | the bytes behind the marker, lengths written out |
| Amf0RoundTrip.DecodeOfBytes | crates/amf0/src/decoder.rs:69-308 | the same for every order in which object entries are emitted, also with the empty key |
| Amf0RoundTrip.EntriesBack | crates/amf0/src/decoder.rs:256-265 | the entries and the end of an object are read back |
| Amf0RoundTrip.KeyBack | crates/amf0/src/decoder.rs:231-247 | a key is read back, also the empty one that starts like the end of the object |
| Amf0RoundTrip.TrailerBack | crates/amf0/src/decoder.rs:231-247 | the trailer is recognised and leaves no marker pending |
| Amf0RoundTrip.ItemsBack | crates/amf0/src/decoder.rs:297-308 | the items of a strict array are read back |
| Amf0RoundTrip.StringBack | crates/amf0/src/decoder.rs:174-186 | short and long strings are read back |
| Amf0RoundTrip.DecodeAfterPeek | crates/amf0/src/decoder.rs:112-128 | peeking does not change what is decoded |
| Amf0RoundTrip.DecodeAllOfBytes | crates/amf0/src/decoder.rs:84-92 | a stream of values is decoded to its end, in order |
| Amf0RoundTrip.EcmaArrayProbe | crates/amf0/src/decoder.rs:266-283 | what `decode_object` and `decode_value` return and leave behind for an ECMA array, for every continuation |
| Amf0WireReading.DecodeIffWire | crates/amf0/src/decoder.rs:69-308 | `decode_value` succeeds exactly on the byte strings of the grammar of `Amf0Wire`, followed by anything, from any pending marker, with the tree and the remaining state that the grammar assigns: undefined, dates, any non-zero boolean, long strings and XML documents of any length, typed objects, ECMA arrays and strict arrays, nested in any way |
| Amf0WireDecoding.WireBack | crates/amf0/src/decoder.rs:69-308 | every value of the grammar is decoded to its tree |
| Amf0WireReading.DecodedIsWire | crates/amf0/src/decoder.rs:69-308 | whatever is decoded is a value of the grammar |
| Amf0WireReading.NotSupportedIffRefused | crates/amf0/src/decoder.rs:79 | an unsupported marker where a value should begin is refused with its name, and no other marker ever is, however deep |
| Amf0WireDecoding.KeyThenValue | crates/amf0/src/decoder.rs:231-247 | a key is read past a marker that was read ahead, and the value behind it takes that marker |
| Amf0Decoding.DecodeValue | crates/amf0/src/decoder.rs:69-81 | on arbitrary bytes: decoding ends, and a value has no more nodes than bytes were consumed for it; which bytes decode to what is `DecodeIffWire` |
| Amf0Decoding.DecodeObject | crates/amf0/src/decoder.rs:252-285 | the same for objects, typed objects and ECMA arrays |
| Amf0Decoding.DecodeStrictArray | crates/amf0/src/decoder.rs:297-308 | the same for strict arrays, whatever size they announce |
| Amf0Decoding.DecodeAll | crates/amf0/src/decoder.rs:84-92 | the same for a whole stream |
| Amf0Decoding.DecodeObjectKey | crates/amf0/src/decoder.rs:231-247 | a key or the end of an object consumes input |
| Amf0Decoding.ReadMarker | crates/amf0/src/decoder.rs:120-128 | a marker counts as one byte, pending or not |
| Amf0Decoding.PeekMarker | crates/amf0/src/decoder.rs:112-118 | peeking keeps the number of bytes to be decoded |
| Amf0DecoderModel.Amf0Decoder.ReadMarker | crates/amf0/src/decoder.rs:120-128 | takes the pending marker or a byte; at the end of the input nothing changes |
| Amf0DecoderModel.Amf0Decoder.PeekMarker | crates/amf0/src/decoder.rs:112-118 | refines the function of that name |
| Amf0DecoderModel.Amf0Decoder.HasRemaining | crates/amf0/src/decoder.rs:103-109 | true, false at the end of the input, or an error |
| Amf0DecoderModel.Amf0Decoder.ExpectMarker | crates/amf0/src/decoder.rs:130-141 | the marker or the type error |
| Amf0DecoderModel.Amf0Decoder.DecodeNumber | crates/amf0/src/decoder.rs:144-155 | numbers and dates |
| Amf0DecoderModel.Amf0Decoder.DecodeString | crates/amf0/src/decoder.rs:174-186 | all three string markers |
| Amf0DecoderModel.Amf0Decoder.DecodeObjectKey | crates/amf0/src/decoder.rs:231-247 | the key, or nothing with the pending marker cleared |
| Amf0DecoderModel.Amf0Decoder.DecodeObject | crates/amf0/src/decoder.rs:252-285 | the loops that insert into the map compute the entries' map |
| Amf0DecoderModel.Amf0Decoder.DecodeStrictArray | crates/amf0/src/decoder.rs:297-308 | the loop that pushes items |
| Amf0DecoderModel.Amf0Decoder.DecodeValue | crates/amf0/src/decoder.rs:69-81 | the recursive decoder refines the decoding function, state and errors included; `DecodeIffWire` says what that is |
| Amf0DecoderModel.Amf0Decoder.DecodeAll | crates/amf0/src/decoder.rs:84-92 | the loop up to the end of the input |
| Amf0EncoderModel.Amf0Encoder.EncodeValue | crates/amf0/src/value.rs:50-59 | appends the layout of the value in some order of its entries, or refuses what does not fit |
| Amf0EncoderModel.Amf0Encoder.EncodeString | crates/amf0/src/encoder.rs:45-65 | short and long strings, and the limit |
| Amf0EncoderModel.Amf0Encoder.EncodeArray | crates/amf0/src/encoder.rs:86-94 | header and items |
| Amf0EncoderModel.Amf0Encoder.EncodeObjectKey | crates/amf0/src/encoder.rs:101-105 | a key of at most 65535 bytes |
| Amf0EncoderModel.Amf0Encoder.EncodeObject | crates/amf0/src/encoder.rs:113-124 | the entries in whatever order the map is walked, then the trailer |
| Fields.MixedRoundTrip | crates/bytes-util/src/bit_read.rs:25-127 | any list of bits, numbers of up to 64 bits, Exp-Golomb codes, raw bytes and alignments is read back from wherever it stands, whatever follows |
| Fields.WriteThenRead | crates/bytes-util/src/bit_write.rs:20-115 | the same with writer, `finish` and reader, behind any bytes |
| Fields.WriteFields | crates/bytes-util/src/bit_write.rs:20-115 | writing calls in sequence write the fields' layout |
| Fields.ReadFields | crates/bytes-util/src/bit_read.rs:25-127 | reading calls in sequence, with the end of the stream |
| Fields.FieldRoundTrip | crates/expgolomb/src/lib.rs:64-130 | one field of each kind |
| BitWriting.BitWriter.WriteBit | crates/bytes-util/src/bit_write.rs:20-36 | one more bit is written, whatever was left in the partial byte |
| BitWriting.BitWriter.WriteBits | crates/bytes-util/src/bit_write.rs:40-53 | the low bits, most significant first; refused exactly when the value needs more |
| BitWriting.BitWriter.Align | crates/bytes-util/src/bit_write.rs:63-69 | zero bits up to the byte boundary |
| BitWriting.BitWriter.Finish | crates/bytes-util/src/bit_write.rs:57-60 | the bytes of everything written, padded |
| BitWriting.BitWriter.Write | crates/bytes-util/src/bit_write.rs:105-115 | fast and slow path write the same bits at every alignment |
| BitWriting.PutBitBits | crates/bytes-util/src/bit_write.rs:21-25 | setting or clearing a bit of the partial byte changes that bit only |
| Bits.NatBitsAt | crates/bytes-util/src/bit_write.rs:47-50 | shift and mask pick the bits of the number |
| BitReading.BitReader.ReadBit | crates/bytes-util/src/bit_read.rs:25-42 | the bit at the position, or the end of the stream |
| BitReading.BitReader.ReadBits | crates/bytes-util/src/bit_read.rs:45-56 | the number at the position; what is consumed when the stream ends |
| BitReading.BitReader.Align | crates/bytes-util/src/bit_read.rs:60-65 | the position moves to the next boundary |
| BitReading.BitReader.Read | crates/bytes-util/src/bit_read.rs:99-126 | fast and slow path deliver the same bytes at every alignment, and how they differ at the end |
| BitReading.BitReader.ReadExact | crates/bytes-util/src/bit_read.rs:99-126 | however reads are cut, the bytes are those of the stream |
| BitReading.BitReader.BitStreamPosition | crates/bytes-util/src/bit_read.rs:138-141 | the abstract position |
| BitReading.BitReader.SeekBits | crates/bytes-util/src/bit_read.rs:145-190 | moves the position by exactly the signed count, from any alignment, with the exact failures |
| BitReading.BitReader.Seek | crates/bytes-util/src/bit_read.rs:194-209 | relative moves keep the bit offset, all others land on a byte |
| BitReading.SeekThereAndBack | crates/bytes-util/src/bit_read.rs:145-190 | seeking there and back is the identity on the reader |
| BitReading.SkipIsRead | crates/bytes-util/src/bit_read.rs:145-190 | skipping any number of bits and reading them lead to the same state |
| BitReading.ShiftIn | crates/bytes-util/src/bit_read.rs:119-121 | shifting a bit into an accumulator of limited width reads one more bit |
| ExpGolomb.CodeWordAt | crates/expgolomb/src/lib.rs:76-89 | a codeword is read back wherever it stands |
| ExpGolomb.CodeWordSpells | crates/expgolomb/src/lib.rs:114-129 | the codeword has k zeros, a one and k more bits that spell the successor of the number |
| ExpGolomb.CodeAtIsCodeWord | crates/expgolomb/src/lib.rs:76-89 | and what is read with at most 63 leading zeros is the codeword of the result |
| ExpGolomb.PrefixFree | crates/expgolomb/src/lib.rs:114-129 | no codeword is a prefix of another |
| ExpGolomb.SignedBijection | crates/expgolomb/src/lib.rs:64-72 | the signed mapping is a bijection from (-2^63, 2^63) onto [0, 2^64 - 2] |
| ExpGolomb.SignedOrder | crates/expgolomb/src/lib.rs:64-72 | k >= 1 is mapped to 2k - 1, -k to 2k |
| ExpGolomb.WriteExpGolomb | crates/expgolomb/src/lib.rs:114-129 | writes the codeword, never failing, up to the 64-bit one |
| ExpGolomb.ReadExpGolomb | crates/expgolomb/src/lib.rs:76-89 | the two loops compute the code at the position |
| ExpGolomb.WriteSignedExpGolomb | crates/expgolomb/src/lib.rs:102-110 | the codeword of the mapped number |
| ExpGolomb.ReadSignedExpGolomb | crates/expgolomb/src/lib.rs:64-72 | the number mapped back |
| ExpGolomb.SizeOfExpGolomb | crates/expgolomb/src/lib.rs:148-157 | the number of bits that are written, 2 log2(n + 1) + 1 |
| ExpGolomb.SizeOfSignedExpGolomb | crates/expgolomb/src/lib.rs:135-143 | the number of bits that are written |
| NalEmulationPrevention.StuffingIsBijection | crates/bytes-util/src/nal_emulation_prevention.rs:22-74 | stuffing is a bijection from all payloads onto the streams that meet the standard's requirement, and reading is its inverse |
| NalEmulationPrevention.ScanIsLegal | crates/bytes-util/src/nal_emulation_prevention.rs:22-38 | the requirement by position and the scan with a counter agree |
| NalEmulationPrevention.StuffConcat | crates/bytes-util/src/nal_emulation_prevention.rs:22-38 | output and counter do not depend on how writes are cut |
| NalEmulationPrevention.StuffGrowth | crates/bytes-util/src/nal_emulation_prevention.rs:24-27 | a payload of n bytes gains at most (n - 1) / 2 bytes from a fresh writer |
| NalEmulationPrevention.StuffGrowthIsTight | crates/bytes-util/src/nal_emulation_prevention.rs:24-27 | zero payloads gain as many |
| NalEmulationPrevention.StuffStep | crates/bytes-util/src/nal_emulation_prevention.rs:24-34 | the counter is the number of zero bytes at the end of the output, at most two |
| NalEmulationPrevention.StuffingWriter.Write | crates/bytes-util/src/nal_emulation_prevention.rs:22-38 | the loop appends the stuffed payload and keeps the counter's meaning |
| NalEmulationPrevention.UnstuffingReader.Read | crates/bytes-util/src/nal_emulation_prevention.rs:46-74 | delivers the next payload bytes, as many as there are room for, leaving the rest of the buffer alone |
| NalEmulationPrevention.StuffThenUnstuff | crates/bytes-util/src/nal_emulation_prevention.rs:22-74 | what is written in pieces is read back |
| HevcMuxing.MuxThenDemux | crates/h265/src/config.rs:92-272 | `mux` succeeds iff every bit field fits and emits `size()` bytes; `demux` in front of any trailing bytes gives the record back iff it is well formed, and takes exactly `size()` bytes |
| HevcMuxing.Mux | crates/h265/src/config.rs:221-271 | appends exactly `RecordBytes` of the record, or refuses a field that does not fit |
| HevcBytes.RecordSpells | crates/h265/src/config.rs:221-271 | the bits of the fields are those bytes: every header byte is given by the record, reserved bits are ones, lengths and counts keep their low bytes, the high one first |
| HevcBytes.HeaderByteByByte | crates/h265/src/config.rs:221-250 | the 23 header bytes by their index |
| HevcMuxing.Demux | crates/h265/src/config.rs:92-187 | the calls compute `ParseRecord`, errors in the code's order; a record is returned iff the bytes are that record (`RecordStands`), and it is well formed and took `size()` bytes |
| HevcBytesParsing.RecordAt | crates/h265/src/config.rs:92-187 | on arbitrary bytes: reading yields a record iff its fields are the quotients and remainders of the first 23 bytes, whatever the reserved bits, and its arrays and units stand behind them with their types, counts and lengths |
| HevcParsing.RecordBack | crates/h265/src/config.rs:92-187 | a well-formed record is read back from wherever its bits stand |
| HevcParsing.ParsedIsWellFormed | crates/h265/src/config.rs:92-187 | on arbitrary bits, a record that comes out is well formed and took exactly its `size()` bytes |
| HevcParsing.LengthSizeTwoIsRefused | crates/h265/src/config.rs:132-137 | every record with a length size of 2 that `mux` writes is refused |
| HevcParsing.MuxedButRefused | crates/h265/src/config.rs:132-137 | an input: such a record |
| Hevc.SizeIsWhatIsWritten | crates/h265/src/config.rs:191-215 | `size()` is the number of bytes written, truncated counts or not |
| SpsExtensionCoding.RoundTripIffWellFormed | crates/h264/src/sps/sps_ext.rs:101-178 | `parse` undoes `build` iff ranges hold and every scaling list ends where the reader stops |
| SpsExtensionCoding.ListIsCutShort | crates/h264/src/sps/sps_ext.rs:127-142 | a scaling list that runs on behind the place where reading stops is read up to there |
| SpsExtensionCoding.ListBehindZeroScale | crates/h264/src/sps/sps_ext.rs:127-142 | an input: an extension whose first list goes on behind a zero scale does not come back |
| SpsExtension.ExtBack | crates/h264/src/sps/sps_ext.rs:101-152 | a well-formed extension is read back from wherever it stands |
| SpsExtension.FirstBits | crates/h264/src/sps/sps_ext.rs:157-178 | an extension begins with the codewords of chroma format, luma depth and chroma depth in this order, the flags between and behind them |
| SpsExtension.ParsedIsWellFormed | crates/h264/src/sps/sps_ext.rs:101-152 | on arbitrary bits, every extension that comes out is well formed |
| SpsExtension.EndsStep | crates/h264/src/sps/sps_ext.rs:131-139 | the stop condition stated by sums is the one the loop tests step by step |
| SpsExtension.NextScaleIsSum | crates/h264/src/sps/sps_ext.rs:135 | wrap-around and the truncating remainder do not change when the scale is zero |
| SpsExtensionCoding.Build | crates/h264/src/sps/sps_ext.rs:157-178 | the calls write the extension's layout |
| SpsExtensionCoding.Parse | crates/h264/src/sps/sps_ext.rs:101-152 | the calls compute `ParseExt`, range errors included |
| SpsExtensionCoding.ReadDeltas | crates/h264/src/sps/sps_ext.rs:131-139 | the loop that breaks at a zero scale |
| SpsExtensionCoding.BitSize | crates/h264/src/sps/sps_ext.rs:183-193 | `bitsize()` is the number of bits written, wherever |
| SpsExtensionCoding.ExtIsShort | crates/h264/src/sps/sps_ext.rs:199-201 | a well-formed extension fits the 16-bit length of its unit |
| AvcBuilding.BuildThenParse | crates/h264/src/config.rs:97-252 | `build` succeeds iff the bit fields and counts fit and emits `size()` bytes; `parse` in front of any bytes gives the record back iff it is well formed, SPS extensions included, and what follows, if anything, cannot be taken for an extended configuration; it then takes exactly those bytes |
| AvcBuilding.Build | crates/h264/src/config.rs:202-252 | the calls write the record's bytes behind what the writer holds |
| AvcBuilding.Parse | crates/h264/src/config.rs:97-166 | the calls compute `ParseRecord`; every record returned is well formed |
| AvcBuilding.Size | crates/h264/src/config.rs:169-198 | `size()` is the number of bytes of the record |
| AvcBuilding.BuildExt | crates/h264/src/config.rs:233-246 | an extension is written with its `bytesize()` and aligned behind it |
| Avc.RecordBack | crates/h264/src/config.rs:97-166 | what is read where a well-formed record stands, for every continuation: the record, or the record with an extended configuration read from what follows |
| Avc.FixedBytes | crates/h264/src/config.rs:205-231 | the bytes of the fixed part where they stand, every reserved bit a one |
| Avc.UnitBytesAre | crates/h264/src/config.rs:212-222 | a unit is its length, the high byte first, and its bytes |
| Avc.FollowedRecordIsMisread | crates/h264/src/config.rs:123-150 | an input: a record of profile 100 and four bytes behind it |
| Avc.ParsedIsWellFormed | crates/h264/src/config.rs:97-166 | on arbitrary bytes, every record that comes out is well formed |
| BytesCursors.BytesCursor.ExtractBytes | crates/bytes-util/src/bytes_cursor.rs:49-71 | the bytes at the position, none for size zero, or the end of the data |

## Left out

- Readers and writers other than memory: short writes, I/O errors other than the end of the data, the inner state after
  such an error, and generic `io::Read`/`io::Write`/`io::Seek` implementations.
- BitReading.BitReader.SeekBits: does not model the overflow of `i64` arithmetic, nor the reader's state after a seek into a
  byte that the stream does not have has failed.
- ExpGolomb.WriteExpGolomb: does not model `u64::MAX`, whose successor overflows; likewise `i64::MIN` for the signed variant.
- ExpGolomb.ReadExpGolomb: models more than 63 leading zeros with a wrapping accumulator, as in a release build; a debug
  build panics on the final subtraction when the accumulator is zero, and the signed variant's largest result leaves `i64`.
- NalEmulationPrevention.UnstuffingReader.Read: models the `u8` counter of zeros as wrapping, as in a release build.
- SpsExtension.NextScaleIsSum: models the `i64` sum as wrapping, as in a release build; a debug build panics.
- HevcMuxing.Mux: requires the constraint flags to fit 48 bits, as the record's documentation says; `write_u48` of the
  `byteorder` crate, which is not part of this model, asserts it. What a refused call has already written is not stated.
- AvcBuilding.Build: what a refused call has already written is not stated; list lengths are below 2^64, as in memory.
- Vector capacities reserved in advance and the depth of the decoder's recursion.
- AMF0: the serde layers, the streaming iterator, and `encode_undefined`, which the encoding of a value never calls. An `f64` is
  its bit pattern.
- DataLoaderProgress.Completes, BatcherProgress.Completes: say that a completing run exists, not that the runtime is fair; a
  fetcher or an executor that never comes back is a step that is enabled and not taken.
- Batching: mutex, semaphore, oneshot channel, once-cell, cancellation token and sleep are atomic steps with their
  documented meaning. Instants are numbers, and the loop runs at most `slack` after its scheduled time. Callers that drop
  their future and the abort of the timer task are not modelled. A panicking fetcher is a step of its own.
- Context: all steps are totally ordered, whereas the code uses relaxed atomics; a `Notified` receives notifications from
  its creation. Cancellation of the futures and the hierarchy of handlers beyond a parent's cancellation are not modelled.
- The AV1 record, FLV, H.264 and H.265 parameter sets as such, codec strings, and all crates around FFmpeg, HTTP,
  telemetry and code generation.
