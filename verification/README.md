# ridgeline in Dafny

A Dafny 4.11 model of ridgeline, an edge-to-cloud detection pipeline, with proofs of what
its documentation and its code promise.  `dafny verify dfyconfig.toml` checks all of it.

## What is modelled

**Delivery** (`Agent`, `Outbox`, `Delivery`, `DeliverySafety`, `DeliveryRuns`,
`DeliveryProgress`, `Ingest`, `StreamEnds`).
The agent numbers events, logs them before queueing them, sends snapshots of its outbox on
each connection and applies cumulative acknowledgements; the gateway keeps only the state of
the streams it is serving.  Producer, sender, reader, network, gateway restarts and agent crashes
are separate steps that interleave freely.  So are the parts of the two operations on the log
file: an append opens the file and then writes it, whole or torn by a crash, and a compaction
reads the file, filters it record by record against the checkpoint of the moment, and replaces
it.  Streams the agent has given up go on being read by their handlers.  The theorems are about
every run of safe steps:

* replay returns exactly the committed events above the checkpoint, and everything at or
  below it was read by a gateway with its exact payload;
* numbers are never reused, and every connection, given up or not, carries consecutive numbers
  from its hello on;
* an event is lost to acknowledgement only if a gateway refuses it and then accepts a later
  one on the same stream.  That happens exactly when the gateway counts a gap.

Three promises of the source need a condition.  Each has a concrete run that breaks it and an
exact characterisation.

* Whatever number comes next, appending it is safe for every payload exactly when the log ends
  cleanly: start-up does not repair
  a torn tail, so the next append lands behind bytes the replay loop stops at.
* Replacing the log keeps what replay returns exactly when every event appended since the
  compaction's read is acknowledged, and an append reaches replay exactly when the log was not
  replaced since it opened it.  An event that falls between is committed and erased; if a crash
  comes before it is acknowledged, its number goes to another event.  The same two conditions
  are exact for numbering: they decide whether a restart resumes above every committed event.
  The log asks for a single owner, which suffices;
  the agent does not enforce it, since its producer thread appends while its sender thread
  compacts, with no lock.
* A cumulative acknowledgement covers only accepted events exactly when no acceptance follows a
  refusal: a detection that is rate limited, or whose publish fails, is skipped without an
  acknowledgement, but the next accepted one acknowledges past it.

A step is safe if it meets the first two conditions and its record fits the framing (a payload of
at most 16 MiB, a 64-bit number).  Runs in which one thread at a time uses the log, no crash tears
an append and every event fits have only safe steps.  From every state of such a run, a restart
and one connection on which the gateway accepts everything acknowledge every committed event.

**Write-ahead log** (`Crc32`, `CrcPolynomial`, `Octets`, `WalRecordCodec`, `WalLog`, `Wal`).  The
table-driven checksum equals the bit-at-a-time one, which is the remainder of a polynomial
division by the generator of section 3.2.9 of IEEE Std 802.3; any damage to at most four
consecutive bytes changes it; the decoder accepts exactly the encodings; replay of a cut or
damaged log returns exactly the records before the damage; compaction is invisible to replay, now
and after any later acknowledgement, for every file content.

**Ring and pipeline** (`SpscRing`, `RingBuffer`, `EdgePipeline`, `PipelineRuns`, `KOfN`).  Each
ring operation is split into its loads, slot accesses and stores with possibly stale copies of the other
side's index, and refines a bounded queue under every interleaving.  The two pipeline threads
run on those steps.  Without `Stop` every captured frame is processed once, in order, and every
frame read is captured or counted as dropped.  With `Stop` at most one frame is stranded, exactly
when one is published after the last look at the ring, and a run that strands one is given.  One
event is offered per rising edge of the K-of-N window, and under every interleaving with the agent
it reaches it in order unless it finds the output ring full.  Every sequence of frames and answers
has a run that handles them all and finishes.
For the burst pattern, whose design note leaves each combination of k, n, burst and period to
be worked out by hand, the exact condition for one edge per burst is a gap longer than n - k.

**Rate limiting and shadow** (`TokenBucket`, `RateLimiter`, `DeviceShadow`).  The bucket obeys a
conservation law under any clock; with a monotone clock, a caller is never refused exactly when
no window of its requests costs more than one capacity plus what the rate earns over it.
The same holds of a tenant at one token an event, whatever other tenants do.
Reading the level is harmless under any clock exactly when it does not advance the refill clock
or nothing can be earned.
Shadow upserts from any number of gateways interleave, with stale or failed reads, puts that
are handled late or never, and lost answers.

**Detector** (`Letterbox`, `Resampling`, `Nms`, `Overlap`, `Detector`) and **manifest**
(`ManifestText`, `OtaManifest`, `SignedManifest`, `ManifestLaws`).  Resize, candidate filter,
suppression and the reported box over reals, down to where in the image a reported row lies;
the text format's round trip and exactly which files parse, to what; and exactly which manifests
share canonical bytes with another.

Where a comment and the code disagree, the model follows the code:

* the log's header comment (core/include/ridgeline/wal.h:20-21) leaves out the eight-byte
  sequence number that the record framing holds;
* the log's comments say that one thread owns it (core/include/ridgeline/wal.h:44-47) and that
  `Compact` is safe to call at any time (core/include/ridgeline/wal.h:90-94), but the agent appends
  from its producer thread (agent/src/main.cc:232-246) and compacts from its sender thread
  (agent/src/main.cc:518-521), and a compaction that overlaps an append erases its event;
* the ring's comment on `SizeApprox` (core/include/ridgeline/ring_buffer.h:258-262) says it is
  not for control flow, but the inference loop ends on it;
* the gateway's comment on its loss report (gateway/src/main.cc:387-395) says a skipped number
  is either rate limited or unexplained, and that rate-limited detections after the last
  accepted one are accounted for; failed publishes also leave gaps and are reported as lost,
  and trailing rate-limited detections hide as many lost ones from the report;
* the gateway's comments on a refused detection (gateway/src/main.cc:291 and 299) say that the
  agent's resend will retry it once the bucket refills; no connection carries a number twice, so
  it is not tried again on that one, and a later acceptance there acknowledges past it;
* the canonical-bytes comment (ota/src/ota_manifest.cc:14-17) says two different manifests can
  never collide; they can, through a separator inside the hash or the url.

## Model

| member | source | states |
|---|---|---|
| `Crc32.BuildTable` | core/include/ridgeline/crc32.h:14-24 | the filled table holds, at every index, the eight-step remainder of that index |
| `Crc32.TableStep` | core/include/ridgeline/crc32.h:29-29 | one lookup and one shift equal feeding eight bits one at a time |
| `Crc32.Compute` | core/include/ridgeline/crc32.h:13-32 | the table-driven loop returns the bit-at-a-time checksum on every input |
| `CrcPolynomial.ChecksumIsRemainder` | core/include/ridgeline/crc32.h:13-32 | the checksum is the complement of the remainder of the message bits, low bit of each byte first, times x^32 and with the first 32 complemented, divided by x^32 + x^26 + x^23 + x^22 + x^16 + x^12 + x^11 + x^10 + x^8 + x^7 + x^5 + x^4 + x^2 + x + 1 |
| `CrcPolynomial.Division` | core/include/ridgeline/crc32.h:26-31 | from any register, feeding any bits is long division: register and bits together are a multiple of the generator plus the new register |
| `CrcPolynomial.PolynomialIsGenerator` | core/include/ridgeline/crc32.h:9-19 | the reversed constant holds exactly the generator's terms below x^32 |
| `Crc32.BurstDetected` | core/include/ridgeline/crc32.h:13-32 | replacing at most four consecutive bytes by anything else changes the checksum |
| `WalRecordCodec.EncodeRecord` | core/include/ridgeline/wal_record_codec.h:20-30 | the buffer filled in place is the record's encoding: number, length modulo 2^32 and checksum each read back from their little-endian bytes, then the payload |
| `WalRecordCodec.DecodeRecord` | core/include/ridgeline/wal_record_codec.h:48-68 | succeeds exactly when a record decodes at the offset, returns it and advances past it; otherwise changes nothing; what it accepts holds its payload's checksum |
| `WalRecordCodec.FieldsOfEncode` | core/include/ridgeline/wal_record_codec.h:20-30 | for payloads of any length, where each field of an encoding lies and what number its bytes are |
| `WalRecordCodec.DecodeReads` | core/include/ridgeline/wal_record_codec.h:48-68 | a record is accepted exactly when 16 header bytes are there, the declared length is at most 16 MiB and fits, and the stored checksum is the payload's |
| `WalRecordCodec.ValueOfCrcBytes` | core/include/ridgeline/wal_record_codec.h:24-27 | the four stored bytes, read as the other fields are, are the checksum |
| `WalRecordCodec.LittleEndianDigit` | core/include/ridgeline/wal_record_codec.h:25-27 | byte i of a stored number is its digit of weight 256^i |
| `WalRecordCodec.DecodeIff` | core/include/ridgeline/wal_record_codec.h:48-68 | decoding yields a record exactly when the bytes begin with that record's encoding and its payload is within the cap |
| `WalRecordCodec.RoundTripIffWithinCap` | core/include/ridgeline/wal_record_codec.h:17-30 | an encoded record decodes back exactly when its payload is at most 16 MiB |
| `WalRecordCodec.TornRecord` | core/include/ridgeline/wal_record_codec.h:48-62 | no proper prefix of an encoded record decodes to anything |
| `WalRecordCodec.DamagedRecord` | core/include/ridgeline/wal_record_codec.h:61-62 | a record with up to four consecutive payload bytes changed does not decode |
| `WalLog.Decompose` | core/src/wal.cc:125-138 | every file is the encoding of the records the decode loop finds, followed by bytes that do not decode |
| `WalLog.Compose` | core/src/wal.cc:125-138 | conversely, encodings followed by bytes that do not decode give back exactly those records |
| `WalLog.CompactKeepsReplay` | core/src/wal.cc:140-150 | for every file content, compaction keeps the replay result now and after any later acknowledgement, leaves a file decoded to its last byte, and is idempotent |
| `WalLog.StaleCompactionIff` | core/src/wal.cc:140-150 | replacing a log by its compaction as of an earlier read loses nothing exactly when everything appended since is acknowledged |
| `WalLog.TruncatedLog` | core/src/wal.cc:125-138 | a log cut at any byte replays exactly the unacknowledged records wholly before the cut |
| `WalLog.CutPoint` | core/src/wal.cc:125-138 | every cut point of a log has such a number of whole records before it |
| `WalLog.DamagedLog` | core/src/wal.cc:125-138 | damage to up to four consecutive payload bytes of one record leaves replay exactly the unacknowledged records before it |
| `WalLog.TornAppend` | core/src/wal.cc:104-115 | an append cut short on a clean log adds no record, and leaves the log clean only if nothing was written |
| `WalLog.AppendSafeIffClean` | core/src/wal.cc:75-87 | for any next number, every payload appended under it is found by replay exactly when the log ends cleanly |
| `Wal.CheckpointRoundTrip` | core/src/wal.cc:91-102 | a stored checkpoint is loaded back as the same number |
| `Wal.CheckpointErrsTowardsReplay` | core/src/wal.cc:91-102 | with a checkpoint of any other size than eight bytes every record is replayed; eight bytes skip exactly the numbers up to theirs |
| `Wal.Wal.constructor` | core/src/wal.cc:75-102 | opening takes the file as it is and the checkpoint, anything but eight bytes meaning nothing acknowledged |
| `Wal.Wal.Append` | core/src/wal.cc:104-115 | the file grows by exactly the record's encoding |
| `Wal.Wal.Acknowledge` | core/src/wal.cc:117-123 | the checkpoint only rises, and a restart would load it |
| `Wal.Wal.ReplayUnacked` | core/src/wal.cc:125-138 | hands out exactly the replay set, in log order |
| `Wal.Wal.Compact` | core/src/wal.cc:140-150 | the rewritten file is clean and replays the same records |
| `Outbox.Outbox.Push` | agent/src/main.cc:159-162 | the event is added at the back |
| `Outbox.Outbox.AckUpTo` | agent/src/main.cc:163-166 | pops from the front; for consecutive numbers this removes exactly the acknowledged ones |
| `Outbox.PopAckedIsUnacked` | agent/src/main.cc:163-166 | popping the front and filtering by number are the same on consecutive numbers |
| `Outbox.Recover` | agent/src/main.cc:194-205 | the rebuilt queue is the replay set and numbering resumes above everything seen |
| `Agent.Agent.constructor` | agent/src/main.cc:194-205 | start-up state comes from the disk alone |
| `Agent.Agent.Emit` | agent/src/main.cc:232-246 | log, queue and counter advance together; on a clean log the event joins the replay set |
| `Agent.Agent.OnAck` | agent/src/main.cc:439-446 | queue and checkpoint both move to the acknowledged number, the log file is untouched |
| `Agent.SendPass` | agent/src/main.cc:496-503 | the pass writes, in order, a prefix of the entries not yet sent, all of them unless the stream fails |
| `Agent.FreshIsUnacked` | agent/src/main.cc:496-503 | skipping by the highest number sent selects exactly the entries above it, for consecutive numbers |
| `Agent.PassSendsUnsent` | agent/src/main.cc:496-503 | the protocol's send steps over a snapshot send each unsent entry once and in order |
| `DeliverySafety.StepKeeps` | agent/src/main.cc:436-503 | every safe step, with appends and compactions split at their file operations, keeps the invariant over disk, operations in progress, agent, streams and history |
| `DeliverySafety.RunKeeps` | agent/src/main.cc:436-503 | the invariant holds after every run of safe steps |
| `DeliverySafety.ReplaceKeepsReplayIff` | core/src/wal.cc:140-150 | in every state the invariant allows, a compaction's replace keeps what replay returns exactly when every event appended since its read is acknowledged |
| `DeliveryRuns.AppendReachesReplayIff` | core/src/wal.cc:104-115 | finishing an append adds its event to what replay returns exactly when the log was not replaced since it was opened |
| `DeliveryRuns.ReplaceKeepsNumberingIff` | agent/src/main.cc:195-202 | after a compaction's replace a restart would resume above every committed event exactly when every event appended since its read is acknowledged; otherwise at the number of the first one erased |
| `DeliveryRuns.AppendKeepsNumberingIff` | agent/src/main.cc:195-202 | after an append a restart would resume above its event exactly when the log was not replaced since it was opened; otherwise at its number |
| `DeliveryRuns.AtLeastOnce` | agent/src/main.cc:194-246 | after any run of safe steps, replay is exactly the committed events above the checkpoint, and every event at or below it was received with its exact payload |
| `DeliveryRuns.NoNumberReused` | agent/src/main.cc:195-202 | over any crashes and restarts the n-th committed event has number n, one number never names two events, and the outbox is consecutive |
| `DeliveryRuns.ConnectionIsContiguous` | agent/src/main.cc:436-503 | on the agent's connection and on every one it gave up, the numbers sent and read are those after the hello, without gap or repeat; the handler counts no duplicates, and no gaps if it refused nothing |
| `DeliveryRuns.RefusedIsNotRetried` | gateway/src/main.cc:289-300 | on every connection, given up or not, the numbers read strictly increase, so a refused event is not read again there |
| `DeliveryRuns.LostOnlyIfOvertaken` | gateway/src/main.cc:285-328 | every committed event was accepted, is in the replay set, or was overtaken on some stream |
| `DeliveryRuns.OvertakesIffGap` | gateway/src/main.cc:305-313 | accepting a detection overtakes a committed event exactly when the gateway counts a gap |
| `DeliveryRuns.GapFreeLosesNothing` | gateway/src/main.cc:285-328 | in a run without gaps every committed event was accepted or is in the replay set |
| `DeliveryRuns.OrderlyRunIsSafe` | core/include/ridgeline/wal.h:44-47 | if one thread at a time uses the log, no crash tears an append and every event fits, all steps are safe, with any number of crashes, restarts and compactions |
| `DeliveryProgress.Recovery` | agent/src/main.cc:436-503 | from every state of a run in which one thread at a time uses the log, some continuation acknowledges every committed event, and each of them was accepted or overtaken before |
| `DeliveryProgress.CourseFinishes` | agent/src/main.cc:496-503 | from any point of a connection that holds or has sent everything committed and was refused nothing, sending, accepting and applying acknowledgements ends with everything acknowledged |
| `DeliveryRuns.AppendAfterTornTailLoses` | core/src/wal.cc:75-87 | a run in which an event committed after a torn append is neither received nor replayed |
| `DeliveryRuns.CompactionErasesAppend` | agent/src/main.cc:518-521 | a run in which an event appended between a compaction's read and replace is committed, but neither received nor replayed |
| `DeliveryRuns.ErasureReusesNumber` | agent/src/main.cc:195-202 | the same run continued by a crash and a restart gives the erased event's number to another event |
| `DeliveryRuns.ReplacedLogMissesAppend` | core/src/wal.cc:104-115 | a run in which an append that opened the log before it was replaced is committed, but neither received nor replayed |
| `DeliveryRuns.RefusalThenAcceptanceLoses` | gateway/src/main.cc:289-328 | a run in which a refused event is acknowledged without ever being accepted |
| `Ingest.Connect` | gateway/src/main.cc:216-410 | the message loop computes the fold of its steps; a stream that ends without an error reports its loss, one that ends with an error reports none |
| `StreamEnds.EndsNormallyIff` | gateway/src/main.cc:237-376 | a stream ends normally exactly when every hello names a device, no message is empty and the first is a hello |
| `StreamEnds.EndsAtFirstImproper` | gateway/src/main.cc:239-374 | otherwise at the first message that breaks this: a failed precondition for a detection or heartbeat before the hello, an invalid argument for the rest, with the counters and acknowledgements up to there |
| `StreamEnds.AnswerTo` | gateway/src/main.cc:285-328 | a duplicate is acknowledged at the position reached, a refused detection not at all, an accepted one at its own number |
| `StreamEnds.AcksAreCounted` | gateway/src/main.cc:285-328 | over any stream, with any hellos, there is one acknowledgement per detection received and per duplicate |
| `Ingest.StreamIsItsDeliveries` | gateway/src/main.cc:238-330 | after one hello the outcome and acknowledgements depend on the detections alone |
| `Ingest.Conservation` | gateway/src/main.cc:285-314 | after a durable hello, position = hello + received + gaps, and each detection is counted once |
| `Ingest.AcksAscend` | gateway/src/main.cc:327-328 | acknowledgements never decrease, stay within the positions, and the last one is the final position |
| `Ingest.EveryNumberOnce` | gateway/src/main.cc:285-314 | on an ascending stream every number is missing, accepted or refused, and only one of these |
| `Ingest.ReportedLostExactly` | gateway/src/main.cc:397-397 | the reported loss is, exactly, missing plus failed publishes before the last accepted number, less the rate-limited ones after it, floored at zero |
| `Ingest.ReportedLostIsMissingIff` | gateway/src/main.cc:397-397 | the report equals what is missing exactly when failed publishes before the last accepted number equal rate-limited deliveries after it, or nothing is missing and they are no more |
| `Ingest.FailedPublishReportedLost` | gateway/src/main.cc:387-397 | a stream that misses nothing and is reported as losing one, because a publish failed |
| `Ingest.TrailingRefusalHidesLoss` | gateway/src/main.cc:391-397 | a stream that misses one and is reported as losing none, because its last delivery was rate limited |
| `Ingest.ReportedLostIsSound` | gateway/src/main.cc:397-397 | without publish failures the report never exceeds what is missing, and equals it when the last delivery was accepted |
| `Ingest.ContiguousReportsNothingLost` | gateway/src/main.cc:397-397 | contiguous input without publish failures reports nothing lost, whatever the rate limiter answers |
| `Ingest.AckCoversAcceptedIff` | gateway/src/main.cc:289-328 | acknowledgements cover only accepted events exactly when no acceptance follows a refusal, which is exactly when no gap is counted |
| `Ingest.ResyncForgivesFirstJump` | gateway/src/main.cc:304-313 | without durable resume state the first accepted detection sets the baseline, and everything after is counted as if resumed there |
| `Ingest.DurableCountsFirstJump` | gateway/src/main.cc:311-313 | with durable resume state the same stream counts exactly that jump as a gap |
| `SpscRing.MaskWrapsIffPowerOfTwo` | core/include/ridgeline/ring_buffer.h:125-125 | masking with capacity - 1 wraps every index exactly when the capacity is a power of two |
| `SpscRing.WrappedSizeIff` | core/include/ridgeline/ring_buffer.h:263-267 | the wrapping 64-bit subtraction, reduced by the capacity, is the distance between the indices for all of them exactly when the capacity divides 2^64 |
| `SpscRing.StepKeeps` | core/include/ridgeline/ring_buffer.h:142-191 | every load, slot access and store of either side keeps the ring's invariant |
| `SpscRing.RefinesQueue` | core/include/ridgeline/ring_buffer.h:142-191 | every step is a step of a first-in first-out queue of at most capacity - 1 items |
| `SpscRing.TurnedAwayOnlyIfFullOrEmpty` | core/include/ridgeline/ring_buffer.h:142-191 | a push is turned away exactly when the ring was full at its load of head, a pop exactly when it was empty at its load of tail |
| `SpscRing.EveryInterleavingIsFifo` | core/include/ridgeline/ring_buffer.h:231-256 | in every interleaving the items freed are a prefix of those published, at most capacity - 1 apart, and no slot is open to both sides |
| `RingBuffer.ItemsAreTheQueue` | core/include/ridgeline/ring_buffer.h:142-191 | the slots between the indices hold the abstract queue |
| `RingBuffer.SpscRingBuffer.TryPush` | core/include/ridgeline/ring_buffer.h:142-167 | refused exactly when capacity - 1 items wait, otherwise appended |
| `RingBuffer.SpscRingBuffer.TryPushWith` | core/include/ridgeline/ring_buffer.h:231-244 | filled in place; a fill that declines publishes nothing |
| `RingBuffer.SpscRingBuffer.TryPop` | core/include/ridgeline/ring_buffer.h:171-191 | the oldest item leaves, or nothing if there is none |
| `RingBuffer.SpscRingBuffer.TryPopWith` | core/include/ridgeline/ring_buffer.h:246-256 | the oldest item is consumed in its slot, whatever the callback leaves there |
| `RingBuffer.SpscRingBuffer.SizeApprox` | core/include/ridgeline/ring_buffer.h:263-267 | with no concurrent operation, the wrapped and reduced difference is the number of items |
| `EdgePipeline.ActionKeeps` | inference/src/edge_pipeline.cc:34-104 | every atomic step of capture, inference and Stop keeps the pipeline's invariant |
| `EdgePipeline.DetectorSeesKeptFramesInOrder` | inference/src/edge_pipeline.cc:70-96 | in every reachable state the detector has seen a prefix of the captured frames, once each, and the events offered or being offered are the rising edges of its answers |
| `EdgePipeline.EventsReachTheAgentInOrder` | inference/src/edge_pipeline.cc:78-93 | under every interleaving of the output ring's two sides the agent has taken a prefix of the events that went in, in order; one went in exactly if it did not find the ring full; if all did, they are the rising edges |
| `EdgePipeline.FinishedHandledEverything` | inference/src/edge_pipeline.cc:34-104 | a run that finished without Stop processed every captured frame in order, frames read = captured + dropped, and offline nothing was dropped |
| `PipelineRuns.SomeRunFinishes` | inference/src/edge_pipeline.cc:34-104 | for every sequence of frames and answers some run reads those frames, handles them all with those answers and finishes without Stop |
| `EdgePipeline.StopStrandsAtMostOne` | inference/src/edge_pipeline.cc:27-32 | after Stop has joined both threads at most one captured frame was not processed |
| `EdgePipeline.NothingStrandedIff` | inference/src/edge_pipeline.cc:97-99 | after both joins every captured frame was processed exactly when the loop ended normally or nothing was published after the last tail it loaded |
| `EdgePipeline.StopCanStrandAFrame` | inference/src/edge_pipeline.cc:97-99 | a run in which Stop leaves one captured frame unprocessed |
| `KOfN.KOfNConfirmer.Update` | core/include/ridgeline/kofn_confirmer.h:54-64 | the incremental window answers whether at least k of the last min(n, t) inputs were positive |
| `KOfN.KOfNConfirmer.Reset` | core/include/ridgeline/kofn_confirmer.h:70-73 | back to the empty history |
| `KOfN.SpacedNeverConfirms` | core/include/ridgeline/kofn_confirmer.h:54-64 | for k of at least 2, positives at least n apart never confirm |
| `KOfN.TurnsOnOncePerBurst` | core/include/ridgeline/fake_detector.h:31-39 | with a gap longer than n - k, confirmation turns on exactly at the k-th frame of each burst |
| `KOfN.OneEdgePerBurstIff` | context/adr/0004-fake-detector-burst-pattern.md:11-38 | one edge per burst at its k-th frame if and only if the gap exceeds n - k |
| `TokenBucket.Conservation` | core/include/ridgeline/token_bucket.h:55-76 | under any clock the level stays in [0, capacity], and what was granted plus what is left is at most what was there plus what the refill clock earned |
| `TokenBucket.OneSecondEarnsRate` | core/include/ridgeline/token_bucket.h:73-74 | one second of the nanosecond clock earns the rate |
| `TokenBucket.WindowBound` | core/include/ridgeline/token_bucket.h:55-76 | in any window of any call sequence, cost granted is at most capacity + rate x advance of the refill clock |
| `TokenBucket.AlwaysInRangeIff` | core/include/ridgeline/token_bucket.h:71-76 | the level stays in [0, capacity] for every call sequence exactly when capacity and rate are not negative |
| `TokenBucket.RefillComposes` | core/include/ridgeline/token_bucket.h:71-76 | with a clock that does not step back, refilling twice is refilling once |
| `TokenBucket.ExtraCallsChangeNothing` | core/include/ridgeline/token_bucket.h:55-68 | with a monotone clock, a TokensAvailable or refused call anywhere changes no other answer |
| `TokenBucket.AheadOfTimeCallHelps` | core/include/ridgeline/token_bucket.h:65-76 | with a clock that steps back, a TokensAvailable call can turn a refusal into a grant |
| `TokenBucket.AvailableIsHarmlessIff` | core/include/ridgeline/token_bucket.h:65-76 | a TokensAvailable call changes no later answer, whatever the clock does, exactly when it does not advance the refill clock or rate or capacity is zero |
| `TokenBucket.DebitedIsTightestSlack` | core/include/ridgeline/token_bucket.h:55-76 | the level is the least, over all windows, of capacity plus earnings less cost |
| `TokenBucket.NeverRefusedIff` | core/include/ridgeline/token_bucket.h:55-76 | a caller with a monotone clock is never refused exactly when no window of its requests costs more than capacity plus the window's earnings |
| `TokenBucket.SteadyCallerNeverRefused` | core/include/ridgeline/token_bucket.h:55-76 | a caller at or below the refill rate, asking for at most the capacity, is never refused |
| `TokenBucket.TokenBucket.Refill` | core/include/ridgeline/token_bucket.h:71-76 | the fields move as the level function says |
| `TokenBucket.TokenBucket.TryConsume` | core/include/ridgeline/token_bucket.h:55-60 | answer and new level are those of a consume call |
| `TokenBucket.TokenBucket.TokensAvailable` | core/include/ridgeline/token_bucket.h:65-68 | answer and new level are those of an availability call |
| `RateLimiter.RateLimiter.CheckRateLimit` | gateway/src/main.cc:424-435 | one key's bucket is made full on first use and consumed from; no other key's changes; a capacity of at most 0 allows everything |
| `RateLimiter.TenantNeverRefusedIff` | gateway/src/main.cc:424-435 | with a monotone clock every event of a key gets through, whatever other keys do, exactly when no window of its events is larger than the capacity plus what the rate earns over it |
| `RateLimiter.BurstAllowance` | gateway/src/main.cc:424-435 | of n events of a new key at one clock reading, among any others, exactly min(n, floor of the capacity) get through |
| `RateLimiter.DisabledAllowsAll` | gateway/src/main.cc:425-425 | a capacity of at most 0 lets everything through and makes no bucket |
| `RateLimiter.SharedBucketIff` | gateway/src/main.cc:288-288 | two devices share a bucket exactly when they have the same tenant, or none and the same id |
| `RateLimiter.TenantsAreIsolated` | gateway/src/main.cc:424-435 | a key's bucket and next answer depend only on that key's own checks |
| `RateLimiter.AllowedOfOwn` | gateway/src/main.cc:424-435 | a key gets through as often among everyone's checks as it would alone |
| `RateLimiter.TenantIsBounded` | gateway/src/main.cc:424-435 | whatever other keys do in between, the events a key got through plus its level are at most the capacity plus what its refill clock earned |
| `RateLimiter.TenantWindowBound` | gateway/src/main.cc:424-435 | in any later window, whatever other keys do in it, the events a key got through plus its level are at most the level before plus what its refill clock earned |
| `DeviceShadow.StepKeeps` | gateway/src/main.cc:196-209 | every read, put, late handling and answer keeps the invariant |
| `DeviceShadow.ConditionIffUnchanged` | dynamodb/src/device_shadow_store.cc:70-88 | the version condition holds exactly when the item is still the very one its sender read |
| `DeviceShadow.NoUnseenWriteOverwritten` | dynamodb/src/device_shadow_store.cc:70-88 | in every reachable state versions count up by one and each was written over exactly the version its writer had read |
| `DeviceShadow.HandledIffUnchanged` | dynamodb/src/device_shadow_store.cc:77-91 | handling a put adds one version if the item is unchanged since its sender's read, and otherwise changes nothing |
| `DeviceShadow.UpsertAppliedAtMostOnce` | gateway/src/main.cc:196-209 | an upsert sends at most three puts and writes at most one version |
| `DeviceShadow.OutcomeIsTrue` | gateway/src/main.cc:203-208 | an upsert that saw success was written; one that gave up sent three puts and was not |
| `DeviceShadow.UpsertReportedWithRetry` | gateway/src/main.cc:196-209 | the loop stops at the first answer that is no conflict, expects each time the version just read, and gives up exactly after three conflicts |
| `Nms.IoULaws` | inference/src/onnx_cpu_detector.cc:12-24 | overlap is symmetric, lies in [0, 1], and is 1 with itself unless the box is empty |
| `Overlap.IoUCountsCells` | inference/src/onnx_cpu_detector.cc:12-24 | for boxes with whole corners, overlap is the number of unit cells in both over the number in either |
| `Overlap.IoUScales` | inference/src/onnx_cpu_detector.cc:12-24 | overlap is the same in every unit of length, so on any grid it counts that grid's cells |
| `Nms.Suppress` | inference/src/onnx_cpu_detector.cc:200-211 | the nested loops compute the greedy selection |
| `Nms.KeptAreSortedAndApart` | inference/src/onnx_cpu_detector.cc:196-211 | kept boxes are in score order with pairwise overlap at most the threshold |
| `Nms.SuppressedOverlapsABetterBox` | inference/src/onnx_cpu_detector.cc:196-211 | every box is kept or overlaps a kept box of at least its score |
| `Nms.UnchangedIffApart` | inference/src/onnx_cpu_detector.cc:196-211 | suppression changes nothing exactly when the boxes are already apart |
| `Nms.SuppressTwice` | inference/src/onnx_cpu_detector.cc:196-211 | suppression is idempotent |
| `Nms.OneArrangementIff` | inference/src/onnx_cpu_detector.cc:198-199 | the unstable sort has one possible result exactly when no two different boxes share a score |
| `Nms.TiesDecideByPosition` | inference/src/onnx_cpu_detector.cc:198-199 | two boxes of one score for which the sort's choice decides which survives |
| `Nms.DeterminedIff` | inference/src/onnx_cpu_detector.cc:198-211 | every descending arrangement keeps the same boxes in the same order exactly when, of any two different candidates of one score, one overlaps a kept box of strictly higher score |
| `Detector.BestClass` | inference/src/onnx_cpu_detector.cc:171-178 | the loop finds the first class of maximal score |
| `Detector.SkipIsHarmlessIff` | inference/src/onnx_cpu_detector.cc:165-169 | the early skip drops no passing row, whatever the objectness, exactly when the best class score is in [0, 1] for a positive threshold, not negative for 0, at least 1 for a negative one |
| `Detector.EarlySkipKeepsCandidates` | inference/src/onnx_cpu_detector.cc:162-194 | with class scores in [0, 1] the early skip keeps the same candidates as the full score test |
| `Detector.FilterRows` | inference/src/onnx_cpu_detector.cc:161-194 | the filter loop yields the boxes of the passing rows in order: each has a row's first best class, its score and its predicted rectangle, and every row whose objectness and score exceed the threshold has one |
| `Detector.DecodedCovers` | inference/src/onnx_cpu_detector.cc:181-192 | a decoded box covers exactly the image points whose scaled position lies in the rectangle its row predicts around its cell |
| `Detector.DecodedCentre` | inference/src/onnx_cpu_detector.cc:181-192 | on an axis where that rectangle lies in the image, its centre and its size are kept |
| `Detector.CandidatesCoverRows` | inference/src/onnx_cpu_detector.cc:161-194 | every candidate describes a passing row, and every passing row is described by a candidate |
| `Detector.DecodedIsInside` | inference/src/onnx_cpu_detector.cc:182-193 | decoded corners are ordered and inside the image |
| `Detector.DetectAll` | inference/src/onnx_cpu_detector.cc:161-211 | from the model's rows on, the result is the suppression of a descending arrangement of the candidates, and each box describes a row |
| `Detector.DetectionLaws` | inference/src/onnx_cpu_detector.cc:196-211 | whatever arrangement the sort chose, the result is sorted, apart, made of candidates, and dominates every other candidate |
| `Detector.Detect` | inference/src/onnx_cpu_detector.cc:214-231 | reports the best kept box of a wanted class with ordered corners in [0, 1], and nothing exactly when no kept box is wanted; the rectangle reported, in fractions of the image, is the one its row predicts |
| `Detector.SomethingReportedIff` | inference/src/onnx_cpu_detector.cc:161-231 | with no class asked for, something is reported exactly when some row's objectness and score exceed the threshold |
| `Letterbox.PositionIsInside` | inference/src/onnx_cpu_detector.cc:31-43 | every sample position lies inside the source axis, so the clip never bites and weights are in [0, 1) |
| `Resampling.CentresCorrespond` | inference/src/onnx_cpu_detector.cc:31-36 | half a pixel in, the position is the same fraction of the source as the index is of the destination, and 0 where that is before the first centre |
| `Resampling.LinearIsReproduced` | inference/src/onnx_cpu_detector.cc:31-132 | on an image whose brightness is linear in its coordinates every sample is the brightness at its position, to the nearest integer |
| `Letterbox.BuildAxisTable` | inference/src/onnx_cpu_detector.cc:31-43 | the tables hold the two neighbours and the weight of every destination index |
| `Letterbox.SampleIsBetween` | inference/src/onnx_cpu_detector.cc:125-131 | every written value, rounding included, lies between any bounds on its four source pixels |
| `Letterbox.IdentityResize` | inference/src/onnx_cpu_detector.cc:31-43 | a frame that is not resized is copied exactly |
| `Letterbox.OffsetInImage` | inference/src/onnx_cpu_detector.cc:112-127 | every byte read is among the first width x height x 3 |
| `Resampling.PixelIsByte` | inference/src/onnx_cpu_detector.cc:114-129 | pixels are stored row by row, three bytes each |
| `Letterbox.OnlyImageBytesMatter` | inference/src/onnx_cpu_detector.cc:112-131 | the tensor depends on no byte beyond those |
| `Letterbox.IndexIsInjective` | inference/src/onnx_cpu_detector.cc:124-131 | different coordinates are different cells, all inside the tensor |
| `Letterbox.EveryCellHasCoordinates` | inference/src/onnx_cpu_detector.cc:105-106 | every cell of the tensor has coordinates |
| `Resampling.TensorLayout` | inference/src/onnx_cpu_detector.cc:106-132 | the tensor is laid out channel by channel, row by row; 114 wherever the resized image does not reach |
| `Letterbox.LongerSideFills` | inference/src/onnx_cpu_detector.cc:100-103 | the resized image reaches the far edge on its longer side |
| `Resampling.LargestScaleThatFits` | inference/src/onnx_cpu_detector.cc:101-101 | the scale is the largest under which both sides fit into the square |
| `Resampling.SidesAreTruncated` | inference/src/onnx_cpu_detector.cc:102-104 | each side is the scaled side with its fraction dropped, but at least one pixel |
| `Letterbox.Preprocessor.Preprocess` | inference/src/onnx_cpu_detector.cc:94-137 | refuses anything but a non-empty BGR frame; otherwise each cell is its sample if inside the resized image and 114 if not |
| `ManifestText.ToHex` | tools/ota_tool.cc:42-48 | two lower-case digits per byte, in order |
| `ManifestText.FromHex` | tools/ota_tool.cc:50-57 | reads pairs as stoi does, ignoring an odd last character and failing where stoi throws |
| `ManifestText.HexRoundTrip` | tools/ota_tool.cc:42-57 | hexadecimal reads back to the same bytes and holds no newline |
| `ManifestText.UnsignedRoundTrip` | tools/ota_tool.cc:82-82 | a printed 64-bit version reads back |
| `ManifestText.SignedRoundTrip` | tools/ota_tool.cc:85-85 | a printed 64-bit time reads back |
| `ManifestLaws.DecimalDigit` | tools/ota_tool.cc:67-70 | place i from the right of a printed number is its digit of weight 10^i |
| `ManifestLaws.DecimalLength` | tools/ota_tool.cc:67-70 | a printed number has as many places as it needs, so no leading zero |
| `ManifestLaws.ReadsUnsigned` | tools/ota_tool.cc:82-82 | space before a number, a sign and anything after its digits are read over; a value too large saturates and a negative one wraps modulo 2^64 |
| `ManifestLaws.ReadsSigned` | tools/ota_tool.cc:85-85 | the same for times, saturating at both ends of 64 bits |
| `ManifestLaws.HexDigits` | tools/ota_tool.cc:42-48 | the two characters of each byte are its high and its low digit |
| `ManifestLaws.PairIsStoi` | tools/ota_tool.cc:54-54 | every pair is read as stoi in base 16 reads two characters, cut to a byte, and throws where it throws |
| `SignedManifest.SerializeSignedManifest` | tools/ota_tool.cc:65-73 | the text written, which parses back when hash and url hold no newline and the signature is not empty |
| `SignedManifest.ParseSignedManifest` | tools/ota_tool.cc:75-90 | the line loop computes the line-by-line parse of any text, including rejected and throwing ones |
| `ManifestLaws.ParsesIff` | tools/ota_tool.cc:75-90 | a file parses exactly when every line is empty or names a field, every signature converts and the last is not empty; each field is what its last line says |
| `ManifestLaws.SerializedLines` | tools/ota_tool.cc:65-73 | the file written is the five named lines in order |
| `SignedManifest.RoundTripIff` | tools/ota_tool.cc:65-90 | parsing a serialized manifest returns it and its signature exactly when hash and url hold no newline and the signature is not empty |
| `OtaManifest.SameBytesIff` | ota/src/ota_manifest.cc:13-22 | two manifests have the same canonical bytes exactly when version, time and the joint text of hash and url agree |
| `ManifestLaws.CanonicalFields` | ota/src/ota_manifest.cc:13-22 | the canonical bytes are the format name and the four fields joined by bars |
| `OtaManifest.CanonicalIsInjective` | ota/src/ota_manifest.cc:13-22 | among hashes without a bar the canonical bytes determine the manifest, whatever the urls hold |
| `OtaManifest.CollidesIff` | ota/src/ota_manifest.cc:13-22 | a manifest shares its canonical bytes with another exactly when the url separator occurs inside its hash or its url |
| `OtaManifest.CollidingPair` | ota/src/ota_manifest.cc:13-22 | two different manifests with the same canonical bytes |

## Left out

- Operating system: renames and single reads of the checkpoint are atomic, and a log write is seen whole, in part, or torn by a crash; file errors and fsync are not modelled.
- Streams: gRPC, TLS, certificate checks, signals and argument parsing are not modelled; a stream is a queue that can be cut at any point, and an acknowledgement that cannot be written is a cut.
- Agent and gateway side traffic: heartbeats carry no state here, and configuration updates, weather, alerts, metrics and backoff are left out because they would add only easy members.
- Numbers: sequence numbers and counters are unbounded below the record framing, so wrap-around of a 64-bit counter is not modelled; the framing's own limits are.
- Floating point: bucket, resize, scores and overlap are over reals, so rounding is not modelled; the model's exponentials arrive as positive sizes.
- Memory ordering: loads and stores interleave with stale index copies; hardware reordering is not modelled.
- RingBuffer.SpscRingBuffer.SizeApprox: masking with capacity - 1 is taken as the remainder by the capacity, which is the same for the powers of two the code insists on.
- KOfN.KOfNConfirmer.Update: the constructor's abort on a k or n out of range is a precondition of the constructor.
- DeviceShadow.UpsertReportedWithRetry: the HTTP and JSON layer is left out, so each read is an item or nothing and each put one of its three results.
- Detector.DetectAll: preprocessing is Letterbox.Preprocessor.Preprocess and the model run is left out, so the rows are any numbers of the right shape and the grid cells are parameters; the sort is a simple one, and the laws are proved for every descending arrangement.
- OtaManifest.CanonicalIsInjective: signing and verification are left out; text is a sequence of characters, not of bytes.
- Fair schedules: that every fair run finishes is not stated; DeliveryProgress.Recovery and PipelineRuns.SomeRunFinishes say that one can.
