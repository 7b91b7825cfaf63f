# JT/T 808 gateway: a verified model

The repository is a Go gateway for vehicle terminals that speak JT/T 808. This project models
the parts of it that carry its hard promises, proves those promises in Dafny, and says exactly
where the code does not keep one. `dafny verify dfyconfig.toml` checks everything.

Five components, in the order in which the files build on each other:

1. **Codec and framer** (`protocol/codec.go`, `readMessage` of both servers). `Bits` gives the
   bit operations on natural numbers; `Wire` the masks, the escape tables and the checksum;
   `Escaping`, `Bcd` and `Codec` the codec as functions on byte strings; `CodecTheorems` its
   round trips, accepted inputs and error detection; `CodecLayout` both directions byte by
   byte, in positions and numbers; `Framing` cutting a byte stream into messages. `Buffers`,
   `CodecImpl` and `MessageReaders` are the same code as the program runs it - classes with
   pooled growing buffers, loops that append to them, message objects whose header Encode
   rewrites - proved equal to those functions for any choice of pooled buffer.
2. **Send and close** (`HighPerfTCPConnection`). `SendClose` is a transition system with one
   step per access to shared state, for any number of Send and Close calls and the write loop;
   `SendCloseSafety` and `SendCloseFlow` hold its invariants and `SendCloseTheorems` the
   results, joined with the framer into what the far end receives. `SendCloseProgress` says
   what the results of Send tell, when the loop leaves, and that nothing gets stuck;
   `SendCloseAlone` carries each of them through undisturbed. `TornFrames` says what a reader
   makes of a frame that breaks off, `SendCloseRuns` gives runs in which one does.
3. **Registry and lifecycle** (`TCPServer.handleConn`, `SetDeviceID`). `Registry` is a
   transition system over any number of connections; `RegistryTheorems` the results,
   `RegistryPaths` what renames, hooks and the way out do.
   **Sharded pools** (`ShardedConnectionPool`, `ShardedConnPool`). `PoolSpec` is the pool on
   values and its refinement of one map, `ShardedPool` the class that changes shards in place.
4. **Worker pool** (`WorkerPool`). `WorkerPool` is a transition system of submitters, workers
   and the adjuster. `WorkerPoolBounds` and `WorkerPoolPeak` prove how large it gets and that
   it gets that large, `WorkerPoolCap` and `WorkerPoolFloor` exactly when the configured maximum
   and minimum hold, `WorkerPoolTasks` what becomes of tasks, `WorkerPoolStop` what a full queue
   and a cancelled context mean and that the pool can always be stopped, `WorkerPoolAlone` what
   Submit, adjust and a worker do undisturbed; `WorkerPoolRuns` is a concrete run.
5. **Token bucket** (`middleware/ratelimit.go`). `TokenBucket` is the class and the window
   rule over the whole call history that its one number decides.

In a transition system a state is a value, a run is a list of steps from the initial state, and
a theorem about runs holds for every list of steps, so for every interleaving. Byte strings are
sequences of integers below 256; a Go string is a byte string.

Where the code and the documents around it differ, the model follows the code:

- A phone number is cut or padded with zeros on the right (`protocol/codec.go:347-361`).
- Package fields are written as 1 and 1 and skipped when read (`protocol/codec.go:209-218`).
- Encryption keeps its low three bits (`protocol/codec.go:85`).
- The two pools hash differently: `fnvHash` is FNV-1 (`transport/tcp_highperf.go:903-910`), the
  other uses FNV-1a (`core/pool.go:44-48`).

Promises that turn out to hold only under a condition:

- `maxWorkers` is not a maximum: `PeakAttained` exceeds it for every maximum of at least 2, and
  for a maximum of 1 with two submitters. The real bound is `PeakBound`; `CapExactly` gives the
  exact condition under which `maxWorkers` holds, and `ExclusiveBound` a way to meet it.
- `minWorkers` is not a minimum, not even when no marker is queued whenever a shrink begins:
  `FloorNeedsMore` ends with no worker. A worker that has taken its marker but not yet
  decremented the counter is still counted. `MinimumExactly` gives the exact condition.
- The registry need not be empty when every connection has finished (`RejectedEntryRemains`).
  `AllFinished` says exactly what it holds: the ids that a rejected connection still carries and
  was the last to store. Such an entry stays until another connection stores the same id.
- Re-encoding a decoded frame restores it exactly for the frames that `EncodeDecode` names.
- An overflow write that fails after some bytes leaves the connection in use with a torn frame
  on it, and what is written afterwards is lost to the far end (`TornFrameLosesLater`).
  `WireHolds` says exactly when the wire carries whole frames: while every write that failed
  did so before its first byte (`NothingTorn`).

## Model

| member | source | states |
|---|---|---|
| Wire.FieldsAreMasks | protocol/types/constants.go:136-147 | the arithmetic fields of the body-property word used in the model are the program's mask-and-shift expressions, for every word |
| Wire.PropertyIsMasks | protocol/codec.go:80-90 | the word Encode stamps on a header is the OR of the masked length, the flags and the shifted encryption |
| Wire.ChecksumDetects | protocol/codec.go:285-293 | changing any one byte of any string changes its checksum |
| Escaping.EscapeConcat | protocol/codec.go:101-105 | stuffing distributes over concatenation, so stuffing header, body and checksum apart is stuffing them together |
| Escaping.EscapeShape | protocol/codec.go:296-315 | stuffing never shrinks a string, at most doubles it, and leaves no flag byte in it |
| Escaping.EscapeBijection | protocol/codec.go:296-344 | a string is the stuffing of s exactly if it is flag-free and unstuffs to s: mutually inverse bijections |
| Escaping.StuffingOfBytes | protocol/types/constants.go:285-294 | 0x7E is stuffed as 0x7D 0x02, 0x7D as 0x7D 0x01, and every other byte as itself, which with the distribution over concatenation fixes every stuffed string |
| Escaping.UnstuffingFromFront | protocol/codec.go:318-344 | what unstuffing makes of the front of any string: 0x7D 0x02 is 0x7E, 0x7D 0x01 is 0x7D, 0x7D before anything else or at the end is the invalid-escape error, and any other byte is itself |
| Bcd.PhoneRoundTrip | protocol/codec.go:347-377 | a phone comes back cut or right-padded with zeros to its field exactly if the characters that fit are digits |
| Bcd.PackRoundTrip | protocol/codec.go:347-377 | packing an unpacked field restores its bytes exactly if every nibble is decimal |
| Codec.EncodeIsFrame | protocol/codec.go:57-110 | the encoding of a body of at most 1023 bytes is one stuffed payload, free of 0x7E, between two bytes 0x7E, at most 2090 bytes long between them |
| CodecTheorems.DecodeEncode | protocol/codec.go:57-165 | Encode refuses only bodies over 1023 bytes, and everything it produces decodes to the normal form of the message |
| CodecTheorems.RoundTripFields | protocol/codec.go:57-282 | across the wire id, version, flow number, sub-package flag and body are kept, encryption becomes its low 3 bits, the length the real one, and the phone its 12- or 20-digit fit exactly if it is digits |
| CodecTheorems.EncodeIgnoresProperty | protocol/codec.go:80-97 | the property and length words handed in do not influence the encoding, so encoding twice gives the same bytes |
| CodecTheorems.HeaderBytes | protocol/codec.go:168-223 | the layout of a header: it encodes to given bytes exactly if each field matches the bytes at its own position, the positions depending on version and sub-package flag |
| CodecLayout.EncodedLayout | protocol/codec.go:57-110 | the payload of every encoding byte by byte: id, then length + 1024 * encryption mod 8 + the flags, version byte, 6 or 10 phone bytes, flow number, package fields 1 and 1, the body, and the XOR of all of it, at positions given in numbers |
| CodecLayout.DecodedLayout | protocol/codec.go:113-165 | Decode yields a message if and only if the input is 0x7E, the stuffing of a payload that XORs to zero and has exactly the length its own bytes declare, and 0x7E, and each field is what the bytes at its position say |
| CodecLayout.PackedDigits | protocol/codec.go:347-361 | byte i of a packed number is 16 times digit 2i plus digit 2i + 1, a digit past the end being 0 |
| CodecLayout.UnpackedByte | protocol/codec.go:364-377 | each byte unpacks to the digits of its high and then its low nibble, a nibble above 9 giving none |
| CodecLayout.ChecksumParity | protocol/codec.go:285-293 | each binary digit of the checksum is the parity of that digit over all bytes |
| CodecTheorems.EncodeDecode | protocol/codec.go:57-165 | for an accepted frame, encoding its decoding gives the frame back byte for byte if and only if it has no inner flag, a clear bit 15, decimal phone nibbles, a non-zero version byte where flagged and package fields 1 and 1 |
| CodecTheorems.DecodeAccepts | protocol/codec.go:113-165 | Decode accepts exactly two flags around well-formed escapes whose payload has 13 bytes or more, XORs to zero and is filled by declared header, declared body and check byte |
| CodecTheorems.DecodeErrors | protocol/codec.go:113-165 | which of the errors every rejected input gets |
| CodecTheorems.SingleByteAlteration | protocol/codec.go:132-137 | altering exactly one byte of an accepted payload, whichever, is always reported as a checksum error |
| Framing.ReadFrame | transport/tcp.go:320-358 | an encoded message in front of any stream is read as its normal form, consuming exactly its frame |
| Framing.StreamRoundTrip | transport/tcp.go:320-358 | reading the concatenated encodings of any list of messages yields their normal forms in order and consumes every byte |
| Framing.TruncatedStream | transport/tcp.go:320-358 | on any prefix of such a stream reading yields exactly the messages whose frames are complete, then the end-of-stream error |
| Framing.CompleteFramesMaximal | transport/tcp.go:320-358 | the number of messages delivered from a prefix is the largest whose frames fit in it |
| Framing.SizeGuard | transport/tcp.go:333-348 | the size guard fires if and only if more bytes than the configured maximum, or 4096 where that is 0 or less, precede the closing flag or come without one |
| Framing.ReadCases | transport/tcp.go:320-358 | the outcome on every stream in numbers: an empty one ends, one that opens with another byte than 0x7E is a bad flag, one without a closing flag ends or is too large, and otherwise the frame is too large or exactly what Decode says of it, consumed whole |
| Buffers.Pool.Get | protocol/codec.go:62-66 | the buffer lent, pooled or new, is known to nobody else, and empty if the pool keeps empty buffers |
| Buffers.Pool.Put | protocol/codec.go:63-66 | the pool's buffers are all empty afterwards if and only if they were and what comes back is empty |
| CodecImpl.Codec.Escape | protocol/codec.go:296-315 | with any pooled buffer the loop computes the stuffing, in an array of its own, and every pooled buffer is empty afterwards |
| CodecImpl.Codec.Unescape | protocol/codec.go:318-344 | with any pooled buffer the loop computes the unstuffing or its error; the buffer goes back empty on every path |
| CodecImpl.Codec.EncodeBCD | protocol/codec.go:347-361 | the digit loop fills the field with the packed digits, zero past the end of the phone |
| CodecImpl.Codec.DecodeBCD | protocol/codec.go:364-377 | the nibble loop returns the decimal nibbles in order |
| CodecImpl.Codec.CalculateChecksum | protocol/codec.go:285-293 | the nested loop computes the checksum of the concatenated parts |
| CodecImpl.Codec.EncodeHeader | protocol/codec.go:168-223 | the header bytes of a header object, in an array no pooled buffer shares |
| CodecImpl.Codec.DecodeHeader | protocol/codec.go:226-282 | a fresh header object with the fields and the length that the specification reads, or its error |
| CodecImpl.Codec.Encode | protocol/codec.go:57-110 | for any message object, nil ones included, and any pool: the bytes or the error of the specification, the property word of the header refreshed and nothing else of it changed, the pool clean, the result aliasing no pooled buffer |
| CodecImpl.Codec.Decode | protocol/codec.go:113-165 | for any bytes a fresh message object with the specified value and the bytes as its raw data, or the specified error, the pool clean on every path |
| MessageReaders.ReadMessage | transport/tcp.go:320-358 | the reading loop returns the specified message or error and leaves exactly the bytes after the message unread |
| MessageReaders.PooledReadMessage | transport/tcp_highperf.go:678-725 | collecting in a pooled slice, whatever was left in it, gives the same outcome on the same bytes and limit, and the slice pool and the codec's pool stay apart |
| MessageReaders.ReadLoop | transport/tcp.go:261-283 | calling the plain readMessage until it fails hands on exactly the messages the stream specification delivers, unchanged by later reads, and ends with its error |
| SendCloseTheorems.ClosedOnce | transport/tcp_highperf.go:762-847 | in every reachable state the channel has been closed at most once, only with connected 0, and no Send is at its channel send unless the channel is open and it holds the read lock against every closer |
| SendCloseTheorems.ClosingAchieves | transport/tcp_highperf.go:838-847 | in every reachable state connected is 0 exactly if somebody has won the closing, the context is cancelled exactly if the winner's closing sequence is finished, and then connected is 0 and the channel closed once; once any Close has returned, connected is 0 |
| SendCloseProgress.NoDeadlock | transport/tcp_highperf.go:762-847 | in every reachable state in which a Send, a closing sequence or the loop has something left to do, some step of those under way can be taken, without any new call |
| SendCloseProgress.LoopLeaves | transport/tcp_highperf.go:762-792 | a loop that left without a failed write left nothing queued unless the context was cancelled, and one that left after a failed write has finished its closing sequence |
| SendCloseTheorems.FramesAccountedFor | transport/tcp_highperf.go:762-847 | every frame put on the channel is written once, in the loop's hand or queued, in channel order, at most 100 queued; while connected is 1 the loop runs; a frame is dropped from its hand only after a failed write |
| SendCloseTheorems.WrittenOnce | transport/tcp_highperf.go:762-833 | no Send call has its frame written twice, by the loop or by itself |
| SendCloseTheorems.SendOutcomes | transport/tcp_highperf.go:795-833 | what each result of Send says: queued exactly if the frame went on the channel, written exactly if this call wrote it, otherwise no whole write of it ever |
| SendCloseProgress.ResultsMean | transport/tcp_highperf.go:795-833 | a Send rejected as closed has found connected 0, an encoding error is returned only for a message without an encoding, which gets that or the rejection, and a write error only after a write that failed |
| SendCloseProgress.LateSendRejected | transport/tcp_highperf.go:795-798 | in every run a Send called once connected is 0 has returned the rejection or not yet looked, whatever its message |
| SendCloseProgress.UncheckedSendRejected | transport/tcp_highperf.go:795-809 | in every run a Send that has not looked at connected for the second time when it becomes 0 returns the rejection or an encoding error, and its frame is never queued or written |
| SendCloseAlone.SendAlone | transport/tcp_highperf.go:795-833 | from every reachable state without a held lock: the whole state after an undisturbed Send, which is rejected with connected 0, queues its frame last while fewer than 100 are queued, and otherwise puts it whole at the end of the wire |
| SendCloseAlone.CloseAlone | transport/tcp_highperf.go:838-847 | the whole state after an undisturbed Close: connected 0, the channel closed once and the context cancelled on an open connection, nothing changed on a closed one |
| SendCloseAlone.LoopAlone | transport/tcp_highperf.go:762-792 | the whole state after an undisturbed write of the loop: the frame queued first is whole at the end of the wire |
| SendCloseAlone.LoopFailsAlone | transport/tcp_highperf.go:771-787 | the whole state after a write of the loop that fails at any byte: the connection is closed as by Close and the loop gone, with what is queued left behind |
| SendCloseAlone.LoopStops | transport/tcp_highperf.go:763-769 | a loop at its select can leave once the context is cancelled, whatever is queued, and before that only if the channel is closed and drained |
| SendCloseTheorems.WireHolds | transport/tcp_highperf.go:771-776 | in every reachable state the wire is exactly the whole frames of the completed writes and then a prefix of the frame in progress if and only if no failed write has left a byte behind |
| SendCloseTheorems.NothingTorn | transport/tcp_highperf.go:771-826 | no byte is left behind in a run if and only if every write that fails in it fails before its first byte |
| SendCloseTheorems.WireDelivers | transport/tcp_highperf.go:771-776 | as long as no failed write has left a byte behind, under every interleaving of loop and overflow writes, the far end is delivered exactly the messages of the completed writes, whole and in wire order, and the frame in progress as soon as its last byte is there |
| TornFrames.TornStops | transport/tcp.go:320-358 | a frame that breaks off anywhere before its closing flag ends the reading with a decoding error when another frame follows: neither it nor anything after it is delivered |
| SendCloseRuns.TornFrameLosesLater | transport/tcp_highperf.go:812-833 | for every message and every place at which its frame can tear, a run in which an overflow write fails there, the connection stays connected, a queued frame is then written whole, and the far end is delivered nothing |
| RegistryTheorems.EntryIsLatestOwner | transport/tcp.go:464-476 | an entry is a connection's if and only if that connection stored the id last and has not removed it since |
| RegistryTheorems.EntryNamesConnection | transport/tcp.go:464-476 | an entry whose connection is not mid-rename is under its own device id, mid-rename under its previous one, and no connection is under two |
| RegistryPaths.RenameSteps | transport/tcp.go:464-476 | what each step of setting a device id does to the registry: nothing, then removing the old entry only if the old id is non-empty, another one and still this connection's, then storing a non-empty new id |
| RegistryPaths.RenameRuns | transport/tcp.go:464-476 | whoever may set an id can carry it through and then carries the new id; setting the id a connection already has an entry under leaves the registry unchanged at each of the steps |
| RegistryTheorems.CleanupSparesOthers | transport/tcp.go:249-259 | from any reachable state on, a connection that has an entry keeps it through every run until somebody stores that id or it removes the entry itself, so no stale connection's cleanup evicts it |
| RegistryTheorems.ActiveIsExact | transport/tcp.go:227-259 | the active counter is connections counted in minus connections finished, never negative, and each connection decrements once on whichever path it leaves |
| RegistryTheorems.DisconnectHooksOnce | transport/tcp.go:238-259 | OnDisconnect hooks have run once each, in order, for a connection that passed every OnConnect hook, and not at all for a rejected one |
| RegistryPaths.HooksDecide | transport/tcp.go:238-259 | in every run a connection is admitted only after passing every OnConnect hook, is rejected exactly if one of them failed, and a rejected one runs no OnDisconnect hook |
| RegistryPaths.FinishesAlone | transport/tcp.go:227-259 | from every reachable state each connection can finish by its own steps alone, and has then decremented the counter exactly once |
| RegistryPaths.CleanupAlone | transport/tcp.go:249-259 | the connections, registry, counter and history after an undisturbed cleanup: the entry of the id the hooks have left goes if there is an id and the entry is still the connection's, and nothing else |
| RegistryTheorems.AllFinished | transport/tcp.go:227-259 | when all have finished the counter is 0 and a connection has the entry of an id if and only if it was rejected, still carries the id and was the last to store it; the registry is empty if and only if there is no such id, as when hooks set no ids |
| RegistryTheorems.RejectedEntryRemains | transport/tcp.go:239-246 | a run after which every connection has finished and an entry remains |
| PoolSpec.ApplyRefines | transport/tcp_highperf.go:231-292 | for every hash function and shard count each operation answers as on one plain map, spelled out for each, and keeps every key in its own shard, every shard count the size of its map and the total the size of the whole |
| PoolSpec.Indistinguishable | core/pool.go:24-114 | two pools with any two hash functions and shard counts answer every sequence of operations alike, as one plain map would |
| PoolSpec.SharedShard | transport/tcp_highperf.go:225-228 | the shard of a key is the remainder of its hash, so two keys share a shard exactly if their hashes leave the same remainder |
| ShardedPool.FnvHash | transport/tcp_highperf.go:903-910 | the loop computes FNV-1 and stays within 32 bits |
| ShardedPool.FnvValues | transport/tcp_highperf.go:903-910 | the published FNV-1 values of no byte and of the byte 0x61, and how one more byte changes any hash |
| ShardedPool.Pool.constructor | transport/tcp_highperf.go:205-222 | for any count a new pool is the empty one, with the default shard count for a count of 0 or less |
| ShardedPool.Pool.Put | transport/tcp_highperf.go:231-240 | in place, exactly the specified step: the entry, its shard's count and the total, nothing else |
| ShardedPool.Pool.Get | transport/tcp_highperf.go:243-249 | answers as the specification |
| ShardedPool.Pool.Delete | transport/tcp_highperf.go:252-261 | in place, exactly the specified step, nothing where the key is absent |
| ShardedPool.Pool.DeleteConn | transport/tcp_highperf.go:264-273 | in place, exactly the specified step: the entry goes only if it is still this connection's |
| ShardedPool.Pool.Size | core/pool.go:87-89 | the answer is the number of entries of the plain map that the pool represents |
| ShardedPool.Pool.Clear | core/pool.go:106-114 | in place, every shard and counter as in an empty pool |
| ShardedPool.Pool.Range | transport/tcp_highperf.go:281-292 | visits entries of the map, none twice: all of them if the callback never stops, otherwise up to the one on which it does |
| WorkerPoolBounds.CountersExact | transport/tcp_highperf.go:319-343 | in every run the worker counter counts the workers not gone and the active counter those inside a task |
| WorkerPoolBounds.PeakBound | transport/tcp_highperf.go:346-403 | with k submitters and the adjuster interleaving, never more than maxWorkers + maxWorkers/2 + k - 1 workers, and never more than maxWorkers if k or maxWorkers is 0 |
| WorkerPoolCap.CapExactly | transport/tcp_highperf.go:346-403 | maxWorkers is never exceeded, however the spawns a run has committed to are carried out, if and only if every load below the maximum and every decision to grow finds room for what it adds to the workers, the submitters about to spawn and the workers still to be added |
| WorkerPoolCap.ExclusiveBound | transport/tcp_highperf.go:346-403 | if check-and-spawn and load-and-grow exclude each other, that condition is met and there are never more than maxWorkers |
| WorkerPoolBounds.Decision | transport/tcp_highperf.go:390-415 | adjust grows exactly above 80 % usage and below the maximum, to the smaller of twice the count it saw and the maximum, by nobody where doubling wraps around 32 bits; it shrinks exactly below 20 % with fewer than half the workers active and more than the minimum; without a queue it does neither |
| WorkerPoolPeak.PeakAttained | transport/tcp_highperf.go:346-403 | for every queue, every 32-bit maximum, every number of submitters and every start of at most half the maximum, some run attains that bound, above maxWorkers if the maximum is at least 2 or it is 1 with two submitters |
| WorkerPoolFloor.FloorExactly | transport/tcp_highperf.go:390-415 | in runs without cancellation, workers less markers taken, queued and still to be pushed never fall below minWorkers if and only if no shrink was decided with more markers outstanding at its load than workers spawned since |
| WorkerPoolFloor.MinimumExactly | transport/tcp_highperf.go:319-343 | the worker count never falls below minWorkers, however the markers a run has decided on are acted out, if and only if minWorkers is 0 or that condition holds |
| WorkerPoolFloor.MinimumKept | transport/tcp_highperf.go:390-415 | under that condition the worker count exceeds minWorkers by at least the markers still under way |
| WorkerPoolRuns.FloorNeedsMore | transport/tcp_highperf.go:390-415 | a run without cancellation that ends with no worker at minimum 1 although no marker was queued whenever the adjuster looked |
| WorkerPoolTasks.TasksAccountedFor | transport/tcp_highperf.go:319-372 | the tasks for which Submit returned true are exactly those queued, with a worker or finished, each in one place; they leave the queue in acceptance order and none is started twice |
| WorkerPoolTasks.RefusedNeverRun | transport/tcp_highperf.go:346-372 | a task for which Submit returned false is never queued or run, and no submitted task is lost track of |
| WorkerPoolStop.CancelledRefused | transport/tcp_highperf.go:346-351 | in every run a task whose Submit looks at the context after the cancellation is refused and never accepted, queued, taken from the queue or started, however the run goes on |
| WorkerPoolStop.QueueBounded | transport/tcp_highperf.go:346-372 | the queue never exceeds its capacity, and no Submit returns false while the pool is not cancelled |
| WorkerPoolStop.OnlyWhenFull | transport/tcp_highperf.go:353-363 | Submit turns to checking for a spawn only with a full queue and no cancellation, and adjust gives up pushing markers only with a full queue |
| WorkerPoolStop.AcceptedAtOnce | transport/tcp_highperf.go:353-371 | with room in the queue, or an empty queue and a waiting worker, Submit can accept at once, at the end of the queue and without a new worker |
| WorkerPoolStop.Decided | transport/tcp_highperf.go:390-415 | what adjust does next with what it has loaded and the active count it now sees: grow, shrink or rest |
| WorkerPoolAlone.SubmitAlone | transport/tcp_highperf.go:346-372 | what an undisturbed Submit does: refuse on a cancelled pool, accept at the end of a queue with room, and with a full queue add one worker if there are fewer than the maximum and wait |
| WorkerPoolAlone.AdjustAlone | transport/tcp_highperf.go:390-415 | what an undisturbed adjustment does: above 80 % usage the number of workers becomes the smaller of its double and the maximum, below 20 % with fewer than half active a marker is queued for each worker above the minimum as far as there is room, otherwise nothing changes |
| WorkerPoolAlone.WorkAlone | transport/tcp_highperf.go:319-343 | a waiting worker takes the item queued longest, runs a task once and waits again with both counters as before, and leaves and is uncounted for a marker |
| WorkerPoolAlone.HandoffsAreShortcuts | transport/tcp_highperf.go:353-363 | on a buffered queue a send met by a waiting worker is the send followed by the worker's receive, possible in the same states |
| WorkerPoolStop.StopCompletes | transport/tcp_highperf.go:429-432 | a cancelled pool can always be brought to a stop: from every reachable state some continuation ends every Submit, the adjuster and every worker, and the worker counter is then 0 |
| TokenBuckets.BucketDecides | middleware/ratelimit.go:51-73 | the refilled number is at least 1 if and only if one more request fits into every window since the creation, an earlier call or now, and afterwards the number is again the least room of all windows |
| TokenBuckets.WindowsInNumbers | middleware/ratelimit.go:51-73 | the window rule in arithmetic: one more request fits if and only if, for the creation, now and every earlier call time s, the requests admitted since s and this one are at most burst + rate * (now - s) |
| TokenBuckets.TokenBucket.Allow | middleware/ratelimit.go:51-73 | in place, for every non-decreasing sequence of call times, admits exactly what the window rule allows on the whole history, that is if and only if the requests admitted since the creation, now and every earlier call time s and this one are at most burst + rate * (now - s) |
| TokenBuckets.CreationImplied | middleware/ratelimit.go:41-73 | for rates of 0 and more the rule is the one over earlier call times alone |
| TokenBuckets.AnyWindow | middleware/ratelimit.go:51-73 | in any window of time, wherever it begins and ends, at most burst + rate * length requests are admitted |
| TokenBuckets.GreedyIsBest | middleware/ratelimit.go:51-73 | no other way of admitting that keeps all windows ever admits more of the same requests |

## Left out

- Sockets, deadlines, listeners, contexts as objects and real time: reads are a byte string, a write puts bytes on the wire and ends or fails at any point, cancelling is a flag, call times are parameters.
- Storage, publishers, logging, metrics, configuration, commands and test tools.
- `core/worker.go`: its Stop closes a queue that Submit may still be sending on, so there is no clean shutdown to state; the pool of the transport package is modelled instead.
- `MaxConnections`: it is checked in another goroutine than the one that counts, so it is no cap on the counter.
- Message dispatch, middleware other than the token bucket, handler and hook panics, and `ParseLocationReport`, `ParseTerminalRegister`, `parseBCDTime`.
- The send/close protocol, the connection lifecycle and the worker pool are transition systems on values, not classes: their point is the interleaving of many goroutines, which methods of one object cannot express.
- ShardedPool.Pool.Put: the operations that look up a shard require a shard count that is not a multiple of 2^32, for which the program divides by zero. It takes the device id as an argument; the program reads it from the connection up to three times. Operations are one at a time; concurrent ones are not interleaved inside a shard lock.
- ShardedPool.Pool.Range: the callback is a pure function, and shards do not change during the visit; a callback that acts on connections is not modelled.
- RegistryTheorems.EntryIsLatestOwner: calls on one connection are sequential. On the high-performance server handlers run on worker threads, where two renames of one connection, or a rename after its cleanup, are possible and not modelled.
- CodecImpl.Codec.Decode: `Raw` holds the caller's bytes as a value; that it shares their memory, and the difference between a nil and an empty slice, are not modelled.
- CodecImpl.Codec.Encode: the property word is put together in a local and assigned once; concurrent calls on one codec are modelled only by the arbitrary content of the pool.
- Buffers.Pool.Get: that a pool may drop buffers of its own accord is covered by its handing out a new one at any time.
- WorkerPoolBounds.PeakBound: the counter is unbounded; the bound shows that the 32-bit counter does not overflow while it is below 2^31. The product in adjust is modelled with its 32-bit wrap-around.
- WorkerPoolTasks.TasksAccountedFor: a nil function handed to Submit acts as a shrink marker in the program; tasks here are not nil. Tasks end; one that never does keeps its worker.
- The usage ratio of adjust is compared as integers; for queue capacities below 2^50 the rounded quotient compares alike.
- TokenBuckets.TokenBucket.Allow: tokens and seconds are reals, so rounding of the floating-point numbers is not modelled.
- Liveness under scheduling: that something under way can always go on, that a connection can finish and that a cancelled pool can be stopped is proved; that the scheduler lets it happen is not.
