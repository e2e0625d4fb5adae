# Hamster in Dafny

A model of the durability and compliance core of Hamster, an S3-compatible object store, with
proofs about it. The modules follow the program:

| modules | part |
|---|---|
| `Datapath*` | shard transfer: sender, receiver, disk, a network that loses, repeats, delays and reorders, crashes at any step |
| `Ec*` | the erasure codec: stripe geometry, shard header, encoder, any-k reader with its one-stripe cache, reconstruction, re-encoding, and what a rotted byte does to a read |
| `Place*` | weighted rendezvous in integers, how near its logarithm is, and the greedy zone, host and drain spread |
| `MetaVid`, `MetaKeys`, `MetaKV`, `MetaPersist` | version IDs, row names, the ordered store, transactions, dump and restore |
| `MetaRecords`, `MetaSystem`, `MetaApply`, `MetaInv`, `MetaRuns`, `MetaEffects`, `MetaLock`, `MetaTakes`, `MetaData`, `MetaStore` | records, what each proposal does, what every step and every log keeps, what a client sees of it, when each is accepted, which data it gives up, and the store that does it on rows |
| `MetaListing`, `GatewayListing` | listings, their paging, delimiter grouping |
| `Wire`, `MetaWire`, `MetaDeep`, `MetaFields`, `MetaRewrite`, `MetaCodec`, `MetaSystemCodec`, `MetaProposals`, `MetaCommands`, `MetaGolden` | the protobuf wire format, the record and proposal codecs, and what rewriting a record keeps |
| `RaftBoot`, `MetaBoot` | lives of a cluster: boot from a durable store, a snapshot and the log's tail, compaction, streamed snapshots |
| `Coord*` | PUT and its admission, what an acknowledgement is worth, the repair sweep, re-encoding a stored version |
| `Bytes`, `Arith`, `Lex` | shared |

Code that changes things step by step is a class here (`WriteStream`, `Service`, `Writer`,
`Reader`, `MemKV`, `TxKV`, `Store`, `Replica`, `PutOp`, `Limiter`, `Sweep`, `ReencodeOp`). Each
of its methods is proved equal to a step function on values, or against the property itself, and
the theorems over runs are about those step functions.

## Main results

- **Transfer.** A stream that reports success has made its whole shard durable, in every run
  (`SuccessIsDurable`). A sender holds exactly the suffix above the largest count acknowledged to it,
  and how it stands is what the events delivered to it say (`BufferIsUnacknowledgedSuffix`,
  `StreamIsHistory`); every shard has a run that succeeds (`TransferSucceeds`).
- **Codec.** Any k shards give back any range of the frame (`Reader.ReadAt`); rebuilt shards are
  byte for byte the written ones (`Reconstruct`, `RebuiltIsWritten`).
- **Acknowledgement.** A PUT that is not aborted is acknowledged exactly when its encoder was closed
  over the whole body, min(k+1, k+m) streams succeeded and the commit was answered well
  (`AckedExactly`). One acknowledged with s durable shards survives any s - k lost nodes: transfer,
  placement and codec composed (`AckedFrameSurvives`).
- **Compliance.** No log of proposals stamped before T removes, weakens or changes a version under
  COMPLIANCE until T, one under GOVERNANCE that nobody bypassed, or one under a hold nobody cleared
  (`ComplianceHolds`, `GovernanceHolds`, `LegalHoldHolds`); a version changes only by the proposals
  for it (`VersionsImmutable`).
- **Data.** What an accepted proposal gives up is exactly the data the store no longer refers to
  (`FreedExactly`), so over any log none is lost track of (`NoDataLost`).
- **Listing.** In every reachable store the derived rows are exactly the live newest versions
  (`ReachableInv`), so listings are the naive filter (`ListingIsNaive`) and pages of any sizes add
  up to it (`PageThrough`).
- **Placement.** The ranking is weight over -ln of the score, to within nineteen units in the last of 32
  fraction bits (`NegLnIsLn`, `RankIsWeighted`); the picks are spread over zones and hosts as evenly as
  they can be (`ZonesBalanced`, `HostsBalanced`).
- **Boot.** Over any life of a cluster every replica's store is the run, from the empty store, of
  the proposals it has reached, and replicas that have reached the same entry agree
  (`ReplicaIsRun`, `LifeOk`, `Agreement`).
- **Codecs.** Every record and every proposal of every kind reads back (`RecordRoundTrip`,
  `SentIsReceived`), and a node that rewrites a record keeps the fields it does not know
  (`DeepRewrite`, `RetentionKeepsUnknown`).
- **Repair.** A clean sweep means every listed version verified at all its homes. A version the
  sweep scrubs loses no genuine shard, and with k good shards and no fault has them all restored,
  except at a home that was silent at scrub and already holds something. One it re-encodes ends,
  if acknowledged, with shards that read as what was fetched (`CoordSweep.Run`,
  `CoordSweep.Sweep.NextItem`). Between any two callbacks of a re-encode the version reads as before
  the switch or as what was fetched after it, unless the switch was answered with an error though
  it committed (`ReencodeOp.ReadNow`).

## What the theorems assume

- The Reed-Solomon library is a pair of functions such that any k slices of an encoded stripe
  rebuild the rest (`MDS`). Copies meet this at k = 1 and a zero-sum parity at m = 1
  (`ReplicationIsMDS`, `ZeroingIsMDS`); that one library meets it at every profile is assumed.
  SHA-256 is a function, injective where a theorem needs it. The rendezvous score is any function of
  the node ID.
- The natural logarithm is any function on the positive reals that turns products into sums and lies
  below x - 1; there is only one.
- All streams for one shard key carry the same bytes, and stream numbers are not reused.
- The disk does not fail while a marker is being written, nor in the first write of a newer
  stream over a live staging entry; a failure inside a delete leaves no removal of a marker
  unsynced; and no delete arrives for a key being staged. `DatapathFaults` shows what each of these
  does otherwise, and exactly when it matters.
- Version IDs stay far enough below 2^128 that the bump does not wrap. `RoomFromIds` derives this
  from the minted IDs and the number of commits; `OverwritesExactlyAtWrap` says exactly when it
  matters.
- Member IDs of a layout are distinct.
- A compaction that is due waits until the applied index has caught up with the durable one, and a
  durable store that cannot be read is met with a snapshot in the log. `MetaBoot` shows what each
  does otherwise.
- A bucket name holds no NUL where versions are listed, as no stored bucket's does.

## Where the code does not keep a promise, and exactly when it does

- `Next` is said to sort always right after its argument (`internal/meta/vid.go:46-48`). It wraps
  at the all-ones ID, and there a write replaces version 0 of its key even if locked
  (`NextSortsAfter`, `OverwritesExactlyAtWrap`, `WrapReplacesLocked`).
- Duplicates are said to sort adjacent (`internal/place/place.go:209`). The check finds one exactly
  when two entries of an ID have nobody else ranked between them; equal weights make that sure,
  and other weights can have one accepted (`DuplicateFoundExactly`, `DuplicatesAdjacent`,
  `DuplicateMissed`).
- `IsLatest` is said to mark each key's newest version, false for a page that resumes inside a key
  (`internal/meta/reads.go:206-208`). Whether it does is read off the marker alone: a marker above
  all versions of its key, say of a version deleted since, has the newest listed as not the latest
  (`FlagsMarkNewestExactly`, `FlagsWrongExactly`, `StaleMarkerHidesLatest`).
- Placement is the bare ranking on one zone and one host. For equal weights it is so exactly when
  the labels are all alike or all different, zones and hosts separately; all-different zones alone
  are not enough (`SpreadIsBareExactlyWhenUniform`).
- A common prefix is said to be recognised on resume because it ends with the delimiter
  (`internal/gateway/bucket.go:180-182`). So does an ungrouped key that ends with the delimiter,
  and resuming at one drops the keys under it (`FaithfulExactlyWithoutTraps`, `FolderIsTrap`).
- A bucket's default retention is said to apply to new objects that arrive without their own
  (`internal/meta/records.go:284-286`). It reaches single-request writes only; an object completed
  from parts has no retention (`DefaultReachesPutsOnly`, `MultipartDeletable`).
- GOVERNANCE without the bypass is said to be strengthened only (`internal/meta/apply.go:301-302`). It can
  also be replaced by a mode the store does not know, no earlier, which locks nothing
  (`RetentionExactly`, `LiftedByUnknownMode`).
- Compaction labels the store with the applied index even while the store is still ahead of it. A
  wiped store, or a peer the snapshot is streamed to, then applies an upload twice
  (`SnapshotFaithfulExactly`, `EarlySnapshotAppliesTwice`, `StreamedSnapshotDiverges`).
- A durable store that cannot be read and has no snapshot is said to be rebuilt by committing the
  replayed log into an empty store (`internal/raftnode/raftnode.go:391-395`). The rows were never
  cleared: disk and memory agree exactly when every old row has been written over, and a restart
  before that trusts a mixed store (`RebuildMatchesExactly`, `UnreadableRowHeals`,
  `MixedStoreAppliesTwice`).
- Re-encoding is said to verify the shards it reads (`internal/coord/reencode.go:163-165`). It
  compares no digest, so the new shards hold whatever frame the fetched ones read as
  (`KeepsFrameExactly`). Matching digests make that the recorded frame
  (`MatchingDigestsKeepFrame`); of a single rotted byte it is so exactly when the byte is padding
  (`RottedSourceExactly`), and the operation reports success either way (`RottedRun`).
- A version is said to stay readable throughout its re-encode (`internal/coord/reencode.go:21-24`).
  An error from the switch is taken to mean that it did not commit, and the new shards are dropped
  (`internal/coord/reencode.go:252-256`), but a forwarded proposal can commit and its answer be
  lost (`internal/cluster/forward.go:33-37`, `internal/cluster/serve.go:142-144`). The version then
  reads exactly while enough of the new shards are left (`EndedReads`, `LostAnswerRun`).
- A sweep that streams a shard to a home that was silent at scrub counts it as repaired even if the
  home answers from a rotted shard it already holds, whenever there is a shard to spare
  (`RepairedIsWholeExactly`, `SilentRotRun`).
- A failed marker write, a failed takeover write, a delete whose marker removal is not synced and a
  delete during staging each leave something that later vouches for a shard that is not there
  (`DatapathFaults`).
- The size of an object completed from parts is a wrapping sum: it is the parts' total exactly when
  that fits a signed 64-bit integer (`CompleteSize`).
- An empty string in a repeated string field is dropped by its encoder (`StringsSurviveExactly`).

## Model

| member | source | states |
|---|---|---|
| DatapathRun.SuccessIsDurable | internal/datapath/service.go:210-370 | In every state of every run of senders, receiver, crashes, disk failures, failing deletes among them, and a network that loses, duplicates, delays and reorders: a stream that reported success, opened after its key was last deleted, has its marker durable and its shard file durable and equal to the whole content. |
| DatapathRun.NeverAcknowledgesMoreThanSent | internal/datapath/write.go:126-155 | No acknowledgement in flight exceeds what its stream was given, so the protocol-violation branch is never taken. |
| DatapathRun.BufferIsUnacknowledgedSuffix | internal/datapath/write.go:26-124 | In every run a live stream buffers exactly the unacknowledged suffix of what it was given, all of it transmitted, never more than the window. |
| DatapathProgress.StreamIsHistory | internal/datapath/write.go:126-207 | In every state of every run each stream is what the events delivered to it say: its base is the largest count acknowledged to it or 0, its buffer ends where what it was given ends, its attempts are the timer firings while it was owed an answer since the count last rose, and it has ended as the first decisive event ended it. |
| DatapathProgress.BaseIsLargestAck | internal/datapath/write.go:126-155 | A live stream's base is the largest count delivered to it, or 0: progress moves it there and nothing else does. |
| DatapathProgress.FailedHasCause | internal/datapath/write.go:126-207 | A stream fails only after the receiver reported failure to it, an abort, or twenty timer firings with nothing new acknowledged in between. |
| DatapathProgress.TransferSucceeds | internal/datapath/write.go:82-149 | For content of any length there is a run in which its stream succeeds. |
| DatapathProgress.AcknowledgedWasStaged | internal/datapath/service.go:210-260 | Every count a receiver ever acknowledged was at some moment of the run staged on its disk for that stream, with the content's own bytes. |
| DatapathProgress.FailedAckNeedsFault | internal/datapath/service.go:210-331 | The receiver reports failure only where its disk failed on that key. |
| DatapathProgress.SealsExactly | internal/datapath/service.go:266-317 | A commit makes a shard committed, and is answered so, if and only if it is for the stream being staged, of positive length, all of it staged, with its digest. |
| DatapathProgress.StagingOnlyGrows | internal/datapath/service.go:210-260 | No event sets staging back: an older stream never takes over from a newer one, and a stream's own staging only grows. |
| DatapathProgress.LostAckMadeGood | internal/datapath/write.go:172-188 | From every state in which more is staged than the sender has heard of, a timer firing, one of its chunks and the answer bring the base up to what is staged. |
| DatapathProgress.LostCommitMadeGood | internal/datapath/service.go:266-317 | From every state in which the shard is sealed and the sender has not heard, a timer firing, its commit and the answer end the stream well. |
| DatapathRun.VerifyReportsContent | internal/datapath/service.go:175-189 | In every run a verify answers "committed" if and only if marker and whole content are durable, and then with the digest of the content. |
| DatapathRun.RunInv | internal/datapath/service.go:98-370 | The protocol invariant (disk, staging, every message ever sent, every stream) holds in every state of every run. |
| DatapathRun.StepOk | internal/datapath/service.go:98-370 | Every event, a crash in the middle of a commit or a delete included, keeps the protocol invariant. |
| DatapathFaults.MarkerFaultExactly | internal/datapath/service.go:300-328 | Why the marker-phase hypothesis is needed: from every state about to seal, a marker that cannot be written or synced costs the shard, and the repeated commit is acknowledged if and only if some marker was left to read. |
| DatapathFaults.TakeoverFaultExactly | internal/datapath/service.go:210-264 | Why the takeover hypothesis is needed: after a newer stream's failed first write the older staging is still sealed and acknowledged, and what was sealed is the content if and only if the failed write left the file as it was. |
| DatapathFaults.DeleteWhileStagedLies | internal/datapath/service.go:354-370 | Why deletes must not meet staging: the staging entry survives the delete and its commit seals a marker beside no shard. |
| DatapathFaults.DeleteFaultExactly | internal/datapath/service.go:354-370 | After a delete that failed on the marker, whatever stream writes next and whatever a crash then leaves, an answer of "committed" means a whole durable shard, if and only if the failure did not leave a durable marker with an unsynced removal. |
| DatapathFaults.DeleteFaultLies | internal/datapath/service.go:354-370 | Otherwise: a new stream overwrites the shard, a crash brings the marker back beside the torn file, and the chunk sent again is answered "committed". |
| DatapathFaults.SealIsReachable | internal/datapath/service.go:210-317 | The states about to seal that the fault lemmas start from are reached by real runs. |
| DatapathSender.ChunksReassemble | internal/datapath/write.go:110-120 | The messages a pump sends, put end to end, are exactly the untransmitted part of the buffer. |
| DatapathSender.ChunksCarryBuffer | internal/datapath/write.go:110-120 | Every message of a pump carries the buffer's own bytes at its own offset. |
| DatapathSender.TimerResends | internal/datapath/write.go:172-188 | A stream kept waiting sends everything unacknowledged again, and its commit last. |
| DatapathSender.WriteStream.DoPump | internal/datapath/write.go:110-120 | The transmit loop does what the step function of the run model says, messages included. |
| DatapathSender.WriteStream.Push | internal/datapath/write.go:75-87 | Write keeps "everything buffered is transmitted and fits the window" and is the run model's step. |
| DatapathSender.WriteStream.Declare | internal/datapath/write.go:92-106 | Commit is the run model's step and keeps the same invariant. |
| DatapathSender.WriteStream.Receive | internal/datapath/write.go:126-155 | Every branch of the acknowledgement handler is the run model's step. |
| DatapathSender.WriteStream.Timer | internal/datapath/write.go:172-188 | The retransmit timer is the run model's step, giving up at the attempt limit. |
| DatapathSender.WriteStream.Window | internal/datapath/write.go:65-70 | A push of that many bytes keeps the stream paced, everything sent and within the window, and one byte more would not. |
| DatapathReceiver.Service.ReceiveChunk | internal/datapath/service.go:210-260 | The chunk handler, disk failures included, is the run model's step and sends its messages. |
| DatapathReceiver.Service.ReceiveCommit | internal/datapath/service.go:266-317 | The commit handler, with a failure at any of its disk steps, is the run model's step. |
| DatapathReceiver.Service.Fail | internal/datapath/service.go:322-328 | Abandoning a transfer removes shard and staging, leaves the marker, and reports failure. |
| DatapathReceiver.Service.ReceiveDelete | internal/datapath/service.go:354-370 | The delete handler, with a failure at either file, is the run model's step; success means neither marker nor shard is left to read, and staging is untouched. |
| EcGeometry.StripesTileFrame | internal/ec/shard.go:161-205 | For every frame size the stripes tile the frame without gap or overlap, each fits its k slices with less than one byte per slice to spare, and slices stay within the slice size. |
| EcGeometry.OffsetInStripe | internal/ec/reader.go:90-110 | The stripe a frame offset is looked up in is the one that holds it. |
| EcHeader.ShardFrontRoundTrip | internal/ec/shard.go:46-145 | Every shard front decodes to the header it was written from, with the payload right after it, whatever the payload. |
| EcHeader.HeaderBytes | internal/ec/shard.go:46-67 | The bytes of every header: the tags are fixed. |
| EcHeader.GoldenFront | internal/ec/ec_test.go:103-113 | One file front in full, as pinned. |
| EcHeader.ReadFields | internal/ec/shard.go:72-143 | The decoding loop is the field-by-field parse, unknown fields skipped, errors included. |
| EcStripe.PayloadSlice | internal/ec/shard.go:191-198 | Reading a shard at a stripe's offset and length yields that stripe's slice. |
| EcStripe.StripeDataBytes | internal/ec/shard.go:200-205 | A stripe's joined data slices, cut to the stripe's data length, are the frame's bytes. |
| EcStripe.ZeroingIsMDS | internal/ec/writer.go:30-161 | The assumption on the codec library can be met at every k: a zero-sum parity slice rebuilds any one missing slice. |
| EcStripe.ReplicationIsMDS | internal/ec/writer.go:30-161 | And at every m by copies. |
| EcWriter.Writer.Create | internal/ec/writer.go:47-83 | A writer exists exactly for valid k+m, a positive frame size and k+m sinks. |
| EcWriter.Writer.Write | internal/ec/writer.go:87-112 | For every way of splitting the frame into writes the accepted bytes accumulate in order; overrun or closed refuses and changes nothing. |
| EcWriter.Writer.Close | internal/ec/writer.go:117-135 | Close succeeds exactly once on a full frame, and then every sink is its reference shard file. |
| EcWriter.Writer.EncodeStripe | internal/ec/writer.go:139-159 | Each sink gains its slice of the encoded stripe. |
| EcWriter.Writer.Checksums | internal/ec/writer.go:164-170 | The recorded digests are those of the whole shard files, header included. |
| EcReader.AnyKShardsReadStripe | internal/ec/reader.go:116-167 | Any k genuine shards determine every stripe: the erasure promise through the stripe arithmetic and the padding. |
| EcReader.GenuineReads | internal/ec/reader.go:116-167 | Genuine shards, any k of them, read as the frame they were written for. |
| EcReader.ReadsAsOnce | internal/ec/reader.go:35-167 | A set of shard files, whoever wrote them, opens one way and reads as one frame at most. |
| EcReader.ReadableReads | internal/ec/reader.go:116-167 | It reads as some frame when every stripe can be read. |
| EcRot.RottedByteExactly | internal/ec/reader.go:116-167 | One byte of a data shard changed: the set still opens and reads, and the frame it reads as is the recorded one if and only if the byte was padding. |
| EcRot.RotHappens | internal/ec/reader.go:116-167 | Both kinds of byte exist: three bytes over two data shards. |
| EcReader.Reader.Open | internal/ec/reader.go:35-80 | A set opens exactly when every present file is a well-formed shard in its own slot, all agree, and at least k are present. |
| EcReader.Reader.ReadAt | internal/ec/reader.go:90-110 | Whatever frame the present shards read as, a read at any offset into any buffer returns exactly its bytes there, reports the end exactly when the buffer outruns the frame, touches nothing past what it read, and read only stripes that can be read. |
| EcReader.Reader.StripeData | internal/ec/reader.go:116-167 | Cache hit, direct read and rebuild all give the same bytes. |
| EcReconstruct.Reconstruct | internal/ec/reconstruct.go:24-122 | From any k genuine survivors with true (or no) digests it succeeds and every rebuilt shard is byte for byte what the writer produced; on success every recorded digest matched. |
| EcReconstruct.RebuiltIsWritten | internal/ec/reconstruct.go:106-122 | Repair never launders corruption: with a digest recorded for every shard, success alone means each rebuilt shard is the written one, whatever the survivors were. |
| EcReencode.Reencode | internal/coord/reencode.go:166-199 | For any shards whatever: re-encoding succeeds if and only if the new profile is valid and they read as some frame, and then yields exactly the shard files a fresh write of that frame would. |
| EcReencode.Copy | internal/coord/reencode.go:188-191 | The copy loop delivers the whole frame to the encoder, buffer by buffer, and fails if and only if some stripe cannot be read. |
| PlaceScore.ComputeNegLn | internal/place/place.go:281-313 | The fixed-point loop in 64-bit words computes the -ln of its definition with no intermediate overflow, and never zero. |
| PlaceScore.NegLnAntitone | internal/place/place.go:281-313 | A larger score never has a larger -ln. |
| PlaceLog.NegLnIsLn | internal/place/place.go:281-313 | Accuracy: for every score the fixed-point value is -ln(score / 2^64) times 2^32, from one unit below to eighteen above, for ln known by its two laws. |
| PlaceLog.LnTwo | internal/place/place.go:271-272 | The constant is ln 2 in Q32, rounded: ln 2 lies in a bracket of a twenty-fifth of a unit. |
| PlaceLog.BitsAreLog | internal/place/place.go:296-306 | The bits squaring finds are those of the logarithm to base 2, for any number of bits, up to the rounding of each squaring. |
| PlaceLog.RankIsWeighted | internal/place/place.go:318-340 | A node ranks before another whenever its weight over -ln of its score is larger, by more than the rounding of the two logarithms. |
| PlaceScore.FracBitsMonotone | internal/place/place.go:293-304 | A larger mantissa never has a smaller log2 fraction: the first differing bit decides. |
| PlaceScore.MantissaBounds | internal/place/place.go:285-292 | The normalized mantissa lies in [2^32, 2^33) for every score. |
| PlaceRank.CmpKey | internal/place/place.go:319-336 | The 128-bit cross-multiplication orders the ratios weight / -ln exactly. |
| PlaceRank.Compare | internal/place/place.go:183-208 | The comparator handed to the sort is negative exactly when the first member ranks before the second and positive exactly when after. |
| PlaceRank.RatioChain | internal/place/place.go:319-336 | The cross-multiplied comparison is transitive. |
| PlaceRank.BeforeTransitive | internal/place/place.go:183-208 | The ranking order is transitive. |
| PlaceRank.BeforeTotal | internal/place/place.go:183-208 | Of two members with different IDs one ranks before the other. |
| PlaceRank.BeforeAsymmetric | internal/place/place.go:183-208 | Never both ways. |
| PlaceRank.SortedUnique | internal/place/place.go:183-208 | So a set of distinct members has one sorted order, whatever the sort does with it. |
| PlaceRank.EqualWeightsRankByScore | internal/place/place.go:183-208 | At equal weights the comparator is bare score order, then ID, even where -ln rounds scores together. |
| PlaceSpread.Spread | internal/place/place.go:160-257 | Placement succeeds exactly for a width in range with no adjacent duplicate, and returns the greedy picks of the ranking. |
| PlaceSpread.Fill | internal/place/place.go:216-257 | The greedy loop with its load maps and picked flags makes the picks of their definition. |
| PlaceSpread.PrefixStable | internal/place/place.go:216-257 | A narrow width is a prefix of a wide one. |
| PlaceSpread.NodeDistinct | internal/place/place.go:160-257 | No node holds two shards of an object. |
| PlaceSpread.MemberOrderIrrelevant | internal/place/place.go:160-208 | Any two orderings of a set of distinct members rank alike, so placement depends only on the set. |
| PlaceSpread.DrainingLast | internal/place/place.go:216-257 | A draining node is picked only after every active one. |
| PlaceTheorems.ZoneCoverage | internal/place/place.go:216-257 | For every width up to the active count the picks span min(width, active zones) distinct zones. |
| PlaceTheorems.ZonesBalanced | internal/place/place.go:216-257 | At every width no zone is two picks ahead of a zone that still has an active node to give. |
| PlaceTheorems.HostsBalanced | internal/place/place.go:216-257 | Within a zone, no host that lies in it is two picks ahead of a host that still has an active node to give. |
| PlaceTheorems.Nodes | internal/place/place.go:349-392 | Bare rendezvous succeeds exactly for a width in range and distinct IDs, and returns the top of the bare ranking. |
| PlaceTheorems.EqualWeightsRankBare | internal/place/place.go:160-208 | With equal weights the weighted ranking is the bare ranking. |
| PlaceTheorems.SpreadIsBareExactlyWhenUniform | internal/place/place.go:160-257 | For equal-weight active members, spread is the bare ranking for every score and width if and only if zones are all alike or all different, and hosts too. |
| PlaceTheorems.UniformIsBare | internal/place/place.go:160-257 | The positive half of that, for any number of members. |
| PlaceTheorems.NotUniformDiffers | internal/place/place.go:160-257 | The negative half: other labels let some scores tell the two apart at width two. |
| PlaceTheorems.DuplicateFoundExactly | internal/place/place.go:209-214 | For every score and every valid member list: the adjacency check refuses it if and only if two entries of one ID are ranked with nobody of another ID between them. |
| PlaceTheorems.DuplicatesAdjacent | internal/place/place.go:209-214 | Where equal IDs carry equal weights, that is every set with a duplicate and no other. |
| PlaceTheorems.DuplicateMissed | internal/place/place.go:209-214 | The input it misses, for any scores: a node listed twice with another node ranked between its entries is accepted and given two of three shards. |
| PlaceTheorems.TiedScoresMissed | internal/place/place.go:209-214 | Weights that make such an input exist for any two IDs whose scores tie. |
| MetaVid.Next | internal/meta/vid.go:49-57 | The carry loop adds one modulo 2^128. |
| MetaVid.NextSortsAfter | internal/meta/vid.go:46-57 | The next ID sorts after the old one if and only if it did not wrap. |
| MetaVid.LessIsValueOrder | internal/meta/vid.go:42-44 | Byte order on IDs is integer order. |
| MetaVid.NewestSortsFirst | internal/meta/keys.go:69-74 | Complemented IDs sort newest first. |
| MetaKeys.EncodeInjective | internal/meta/keys.go:48-86 | Distinct rows have distinct names, across all tables. |
| MetaKeys.VersionRowOrder | internal/meta/keys.go:58-61 | Version rows of a bucket sort by key, then newest first. |
| MetaKeys.CurrentRowOrder | internal/meta/keys.go:54 | Current rows of a bucket sort by key. |
| MetaKeys.UnderVersionPrefix | internal/meta/keys.go:63 | The rows under a key's version prefix are exactly its versions. |
| MetaKeys.UnderBucketVersions | internal/meta/keys.go:65 | The rows under a bucket's version prefix are exactly its version rows. |
| MetaKeys.UnderUploads | internal/meta/keys.go:86 | The rows under a bucket's upload prefix are exactly its uploads and parts. |
| MetaKeys.UnderUpload | internal/meta/keys.go:76-84 | The rows under one upload's name are that upload and its parts, no other upload's. |
| MetaKeys.UnderCurrent | internal/meta/keys.go:56 | The rows under a bucket's current prefix plus a key prefix are the current rows of those keys. |
| MetaKeys.UncheckedVersionRow | internal/meta/keys.go:58-61 | A version row asked for by unchecked names still finds only the row of those names. |
| MetaKeys.KeyAndVersionOf | internal/meta/keys.go:114-120 | Parsing a version row's name gives back key and ID. |
| MetaKeys.ValidateBucketName | internal/meta/keys.go:135-150 | The loop accepts exactly the names of the rule, and those hold no NUL. |
| MetaKV.MemKV.Set | internal/meta/kv.go:25-31 | The sorted slice and the map stay in step under set. |
| MetaKV.MemKV.Delete | internal/meta/kv.go:33-40 | The sorted slice and the map stay in step under delete. |
| MetaKV.MemKV.Search | internal/meta/kv.go:25-52 | Binary search finds the key's place. |
| MetaKV.ScanPrefix | internal/meta/kv.go:45-52 | A scan from a prefix that stops at the first row without it visits exactly the rows with it, in order. |
| MetaKV.ScanRange | internal/meta/kv.go:45-52 | Rows with a prefix are contiguous from its place. |
| MetaPersist.RecordUndoes | internal/meta/persist.go:124-131 | Recording before a change makes it undoable, however often the key was touched before. |
| MetaPersist.CommitMatches | internal/meta/persist.go:72-96 | Writing the touched keys' rows makes the disk the encoding of memory. |
| MetaPersist.RebuildMatchesExactly | internal/raftnode/raftnode.go:388-396 | Replaying applies over rows that were never cleared leaves the disk equal to memory if and only if every row that was there has been written over. |
| MetaPersist.UnreadableRowHeals | internal/raftnode/raftnode.go:388-396 | One unreadable row, written over, makes the old rows readable again as a whole. |
| MetaPersist.TxKV.Set | internal/meta/persist.go:133-136 | A set in a transaction changes memory and keeps the starting state recoverable. |
| MetaPersist.TxKV.Delete | internal/meta/persist.go:138-141 | Likewise a delete. |
| MetaPersist.TxKV.Rollback | internal/meta/persist.go:144-154 | Rollback restores the exact starting state. |
| MetaPersist.TxKV.Finish | internal/meta/persist.go:72-96 | Whatever fails, memory and disk agree afterwards: the whole change or none of it; without a persister, or with nothing touched, the disk is not asked. |
| MetaPersist.Dump | internal/meta/persist.go:59-66 | A dump is every row, encoded, in key order. |
| MetaPersist.DumpIsDeterministic | internal/meta/persist.go:54-67 | Equal states dump to equal rows. |
| MetaPersist.Restore | internal/meta/persist.go:46-53 | Loading a store's rows in any order reproduces it; it fails exactly when some row does not decode. |
| MetaApply.RefusalChangesNothing | internal/meta/apply.go:11-700 | A refused proposal of any kind changes nothing. |
| MetaApply.UntouchedIsUnchanged | internal/meta/persist.go:72-96 | An apply that leaves no changeset, refused or with its work already done, changed nothing. |
| MetaSystem.LayoutsCountUp | internal/meta/apply.go:396-421 | Over any run of commands the layout generation counts up by one per accepted layout, modulo 2^64, and the partition count is fixed by the first. |
| MetaSystem.EncryptionStaysOn | internal/meta/apply.go:429-458 | Over any run of commands encryption, once on under a key, stays on, and the key changes only by completing a rotation to it. |
| MetaSystem.SystemRunOk | internal/meta/apply.go:396-688 | Over any run of commands a trust bundle trusts its issuer, a layout has partitions and members, and every member row is under its own name. |
| MetaInv.StepKeepsInv | internal/meta/apply.go:11-700 | Every proposal keeps the store's invariant: derived rows match newest versions, null-version rules, no orphans. |
| MetaInv.DeleteVersionKeepsInv | internal/meta/apply.go:245-273 | Deleting a version recomputes the derived row exactly when it was the newest. |
| MetaInv.DeleteObjectKeepsInv | internal/meta/apply.go:189-239 | Deleting in an unversioned bucket removes the key's only version and its row. |
| MetaInv.CommitIds | internal/meta/apply.go:140-186 | After a commit the key has its old versions, less a replaced null version, plus the new one. |
| MetaInv.BumpedIsFresh | internal/meta/apply.go:140-148 | The bumped ID is above every ID of its key if and only if the newest was not the last ID. |
| MetaInv.OrphanFree | internal/meta/apply.go:38-55 | No version outlives its bucket. |
| MetaRuns.ReachableInv | internal/meta/apply.go:114-273 | In every store reachable from empty: a key has a current row iff its newest version is a live object, the row is derived from it, the null rules hold, and after n commits IDs are at most the largest minted plus n. |
| MetaRuns.RunKeepsInv | internal/meta/apply.go:114-273 | The same from any well-formed store. |
| MetaRuns.CommitIsNewest | internal/meta/apply.go:114-186 | The version a commit reports is above every version the key had and is its newest afterwards. |
| MetaRuns.ComplianceHolds | internal/meta/records.go:224-238 | For every log stamped before T, a version under COMPLIANCE until T still exists, its retention never weakened, its size, ETag and checksum unchanged. |
| MetaRuns.LegalHoldHolds | internal/meta/apply.go:319-328 | Until a proposal clears it, a held version exists with its content unchanged, whatever the stamps. |
| MetaRuns.StepStrengthens | internal/meta/apply.go:279-316 | No single proposal stamped before its date removes a COMPLIANCE version or weakens it, re-encode and rewrap included. |
| MetaRuns.StepHolds | internal/meta/apply.go:245-273 | No single proposal other than clearing it removes a held version. |
| MetaRuns.DeleteVersionSpares | internal/meta/apply.go:245-273 | A delete spares every other version, and its own target under a hold, live COMPLIANCE, or live GOVERNANCE without the bypass. |
| MetaLock.GovernanceHolds | internal/meta/records.go:224-238 | For every log stamped before T in which no proposal bypasses or names an unknown mode for it, a version under GOVERNANCE until T still exists, its content unchanged, its retention no weaker. |
| MetaLock.DeleteVersionExactly | internal/meta/apply.go:245-273 | A present version is removed if and only if it has no hold and its retention has expired, is of no locking mode, or is GOVERNANCE and bypassed; otherwise nothing changes. |
| MetaLock.RetentionExactly | internal/meta/apply.go:279-316 | A retention change is accepted if and only if it strengthens live retention, or that is GOVERNANCE and bypassed or replaced by an unknown mode no earlier, or there is none live and the date is to come; it sets the two fields alone. |
| MetaLock.LiftedByUnknownMode | internal/meta/apply.go:300-306 | The failing input: without the bypass GOVERNANCE is replaced by a mode the store does not know, and the version is then removed. |
| MetaLock.HoldExactly | internal/meta/apply.go:319-328 | A hold is set or cleared if and only if the version is an object in a bucket with object lock, and nothing else changes. |
| MetaLock.ReEncodeExactly | internal/meta/apply.go:335-360 | The switch is accepted if and only if the version is an object stored whole and there are as many digests as shards, in 32 bits; the version then names the proposal's data, profile and digests, and every other field and row is as it was. |
| MetaLock.RewrapExactly | internal/meta/apply.go:497-517 | A rewrap is accepted if and only if the object is encrypted and there is a key; the version then carries that key and its wrapped data key unless it was on it, and every other field and row is as it was. |
| MetaLock.VersionsImmutable | internal/meta/apply.go:114-360 | Over any log that never removes it, a version's content stays, and its data address, wrapped key, retention and hold change only by the proposals for them that name it. |
| MetaRuns.RoomFromIds | internal/meta/vid.go:46-57 | Minted IDs far enough below 2^128 leave room along the whole log, so the lock theorems apply. |
| MetaRuns.OverwritesExactlyAtWrap | internal/meta/apply.go:140-148 | A commit lands on an existing row if and only if the newest ID is the last there is and the first is taken. |
| MetaRuns.WrapReplacesLocked | internal/meta/apply.go:114-186 | At that wrap an ordinary write replaces a version under COMPLIANCE. |
| MetaEffects.StepElsewhere | internal/meta/apply.go:11-700 | A proposal about one key leaves every other key's versions, listing row, uploads and parts alone; one about a bucket or the system leaves every key's. |
| MetaEffects.PutIsRead | internal/meta/apply.go:114-186 | What was put is what is read and listed: size, ETag, checksum, placement, lock and data address are the write's own. |
| MetaEffects.MarkerHides | internal/meta/apply.go:189-239 | A delete in a versioned bucket hides the key and keeps every version with an ID of its own. |
| MetaEffects.HistoryOnlyGrows | internal/meta/apply.go:114-243 | With versioning enabled a commit adds its version to the key and removes none, and gives up no data but that of parts a completion does not list. |
| MetaEffects.CompleteIsParts | internal/meta/multipart.go:207-270 | A completed object is its listed parts in order, each stored with the claimed ETag and, except the last, at least the minimum size, with their data, checksums and layouts, the upload's content type and metadata, and a listing row that shows it. |
| MetaEffects.CompleteSize | internal/meta/multipart.go:216-241 | Its size is the sum of theirs if and only if the sum fits a signed 64-bit integer. |
| MetaEffects.UploadEnds | internal/meta/multipart.go:272-312 | Completing or aborting ends the upload, parts included, and leaves the key's other uploads. |
| MetaEffects.RetentionTakes | internal/meta/apply.go:279-316 | An accepted retention change takes effect and touches nothing else of the version. |
| MetaEffects.DefaultReachesPutsOnly | internal/meta/apply.go:130-138 | A bucket's default retention reaches a new object that carries none if and only if it came in one request. |
| MetaEffects.MultipartDeletable | internal/meta/multipart.go:249-260 | An object completed from parts can be deleted at once, whatever the bucket's default. |
| MetaData.FreedExactly | internal/meta/records.go:184-201 | Conservation: what an accepted proposal of any kind gives up is exactly the data the store no longer refers to: none drops out unreported, none is given up that was not in it, and while every address is brought once none that still is. |
| MetaData.NoDataLost | internal/meta/apply.go:114-273 | Over any log, a data address in the store at some point and not at the end was given up in between. |
| MetaData.CompleteExact | internal/meta/multipart.go:172-282 | A completion passes the listed parts' data to the object and gives up the unlisted and the replaced version's. |
| MetaTakes.NamesExactly | internal/meta/keys.go:122-150 | The names the store takes: a key of 1 to 1024 bytes with no NUL, a bucket name of 3 to 63 lower-case letters, digits, dots and hyphens, alphanumeric at both ends. |
| MetaTakes.CreateBucketExactly | internal/meta/apply.go:11-31 | A bucket is created if and only if its name is valid and free; with object lock it starts versioned. |
| MetaTakes.DeleteBucketExactly | internal/meta/apply.go:38-55 | A bucket is deleted if and only if it holds no version, upload or part. |
| MetaTakes.VersioningExactly | internal/meta/apply.go:60-75 | Versioning is switched on always, suspended if and only if there is no object lock, and never off; no other setting changes. |
| MetaTakes.DefaultExactly | internal/meta/apply.go:81-109 | A default retention is set if and only if there is object lock and it is none at all or a mode with either days or years; no other setting changes. |
| MetaTakes.BucketsKeep | internal/meta/apply.go:11-112 | Over any log that does not delete it a bucket keeps its name and object lock, and versioning once on is never off, nor suspended under object lock. |
| MetaTakes.PutExactly | internal/meta/apply.go:114-186 | A write is accepted if and only if the bucket exists, the key is valid, lock settings come with object lock and a date to come, and a null version it replaces is free. |
| MetaTakes.DeleteObjectExactly | internal/meta/apply.go:189-239 | A delete without a version is accepted if and only if the bucket exists, the key is valid and what it removes or replaces is free. |
| MetaTakes.DeleteObjectTakes | internal/meta/apply.go:189-239 | With no versioning the key is then gone; otherwise it has a marker of that date, with no data and no lock. |
| MetaTakes.CompleteExactly | internal/meta/multipart.go:172-282 | An upload is completed if and only if it is open, its listed parts are ascending, each stored under the claimed ETag and all but the last of 5 MiB, and a null version it replaces is free. |
| MetaTakes.CreateUploadExactly | internal/meta/multipart.go:109-129 | An upload is opened if and only if its ID is free, and carries the content type and metadata its version will. |
| MetaTakes.PartExactly | internal/meta/multipart.go:133-168 | A part is stored if and only if its upload is open and its number is from 1 to 10000, with every field as proposed, in place of any earlier one. |
| MetaTakes.LayoutExactly | internal/meta/apply.go:396-421 | A layout is installed if and only if it is the next generation with the fixed partition count and a member, and is then as proposed. |
| MetaTakes.PostureExactly | internal/meta/apply.go:429-458 | Encryption is affirmed if and only if the algorithm is known, not back to none, and the key is the one in use; an open rotation stays open. |
| MetaTakes.RotationExactly | internal/meta/apply.go:464-545 | A rotation opens if and only if it goes from the key in use to another, one at a time, and closes if and only if onto its target, which is then in use. |
| MetaTakes.RegisterExactly | internal/meta/apply.go:552-574 | A registration is accepted if and only if it has a name; it sets the labels and keeps the version another command owns. |
| MetaTakes.MemberExactly | internal/meta/apply.go:579-684 | A change to a member is accepted if and only if it is registered, and sets what it names and no more. |
| MetaTakes.TrustExactly | internal/meta/apply.go:620-648 | A trust bundle is installed if and only if it is the next generation, its authorities are complete and the issuer is among them. |
| MetaStore.Store.CreateBucket | internal/meta/apply.go:11-31 | On the row store with its prefix scans, the apply takes the step the theorems are about, result and refusals included. |
| MetaStore.Store.DeleteBucket | internal/meta/apply.go:38-55 | On the row store with its prefix scans, the apply takes the step the theorems are about, result and refusals included. |
| MetaStore.Store.SetBucketVersioning | internal/meta/apply.go:60-75 | On the row store with its prefix scans, the apply takes the step the theorems are about, result and refusals included. |
| MetaStore.Store.SetLockConfiguration | internal/meta/apply.go:81-109 | On the row store with its prefix scans, the apply takes the step the theorems are about, result and refusals included. |
| MetaStore.Store.PutObject | internal/meta/apply.go:114-186 | On the row store with its prefix scans, the apply takes the step the theorems are about, result and refusals included. |
| MetaStore.Store.DeleteObject | internal/meta/apply.go:189-239 | On the row store with its prefix scans, the apply takes the step the theorems are about, result and refusals included. |
| MetaStore.Store.DeleteVersion | internal/meta/apply.go:245-273 | On the row store with its prefix scans, the apply takes the step the theorems are about, result and refusals included. |
| MetaStore.Store.UpdateRetention | internal/meta/apply.go:279-316 | On the row store with its prefix scans, the apply takes the step the theorems are about, result and refusals included. |
| MetaStore.Store.UpdateLegalHold | internal/meta/apply.go:319-328 | On the row store with its prefix scans, the apply takes the step the theorems are about, result and refusals included. |
| MetaStore.Store.ReEncodeObject | internal/meta/apply.go:335-360 | On the row store with its prefix scans, the apply takes the step the theorems are about, result and refusals included. |
| MetaStore.Store.RewrapDEK | internal/meta/apply.go:497-517 | On the row store with its prefix scans, the apply takes the step the theorems are about, result and refusals included. |
| MetaStore.Store.CreateUpload | internal/meta/multipart.go:109-129 | On the row store with its scan over the upload, the apply takes the step the theorems are about. |
| MetaStore.Store.UploadPart | internal/meta/multipart.go:133-168 | On the row store with its scan over the upload, the apply takes the step the theorems are about. |
| MetaStore.Store.CompleteUpload | internal/meta/multipart.go:172-282 | On the row store with its scan over the upload, the apply takes the step the theorems are about. |
| MetaStore.Store.AbortUpload | internal/meta/multipart.go:285-312 | On the row store with its scan over the upload, the apply takes the step the theorems are about. |
| MetaStore.Store.SetSystem | internal/meta/apply.go:396-688 | Every system command, its own checks included, takes the step the theorems are about, on the rows it names and no other. |
| MetaStore.Store.SetClusterLayout | internal/meta/apply.go:396-421 | What the layout apply decides is the change of the theorems. |
| MetaStore.Store.SetEncryptionPosture | internal/meta/apply.go:429-458 | Likewise the encryption posture. |
| MetaStore.Store.BeginKEKRotation | internal/meta/apply.go:464-488 | Likewise opening a key rotation. |
| MetaStore.Store.CompleteKEKRotation | internal/meta/apply.go:524-545 | Likewise closing one. |
| MetaStore.Store.RegisterNode | internal/meta/apply.go:552-574 | Likewise registering a member. |
| MetaStore.Store.UpdateNode | internal/meta/apply.go:579-688 | Likewise the changes to a member's record. |
| MetaStore.Store.SetTrustBundle | internal/meta/apply.go:620-648 | Likewise the trust bundle. |
| MetaStore.Store.NewestVersion | internal/meta/reads.go:250-261 | The first row under a key's version prefix is its newest version. |
| MetaStore.Store.NullVersion | internal/meta/reads.go:264-279 | The scan finds the null version if and only if the key has one. |
| MetaStore.Store.GetBucket | internal/meta/reads.go:13-19 | A bucket looked up by any name is the bucket of that name or none. |
| MetaStore.Store.GetVersion | internal/meta/reads.go:133-139 | A version looked up by any names is the version of those names or none. |
| MetaStore.Store.RemoveNullVersion | internal/meta/apply.go:690-700 | The unlocked null version goes; a locked one refuses. |
| MetaStore.Store.CommitVersion | internal/meta/apply.go:174-186 | The shared commit path is the commit of the theorems. |
| MetaStore.Store.Bump | internal/meta/apply.go:140-148 | The ID used is the minted one, or just past the newest. |
| MetaStore.Store.PartsOf | internal/meta/multipart.go:191-205 | The upload scan collects exactly its parts by number. |
| MetaStore.CheckOrder | internal/meta/multipart.go:207-215 | The check accepts exactly strictly ascending part numbers. |
| MetaStore.Assemble | internal/meta/multipart.go:216-241 | The first bad part decides the refusal; otherwise references and total size are those of the listed parts. |
| MetaStore.Store.Apply | internal/meta/persist.go:72-96 | One committed entry, with or without a persister, over any pattern of commit failures: the step is taken and the durable rows follow, or neither memory nor disk changed; the commit is asked for exactly when the apply left a changeset. |
| MetaListing.ListObjects | internal/meta/reads.go:166-190 | For any bucket, prefix and start, the page is the naive filter of the live keys by prefix, start and limit, each with its own derived row. |
| MetaListing.ListingIsNaive | internal/meta/reads.go:146-190 | In every well-formed store the listed keys are exactly those whose newest version is a live object, and each row shows that version's ID, size, ETag, date and number of parts, so listing the index is filtering the version lists. |
| MetaListing.ListObjectVersions | internal/meta/reads.go:209-245 | For any key marker, a page is the rows whose names sort after the marker's, up to the limit, truncation reported exactly; a row is flagged latest when it starts its key, the first row unless it continues the marker's key. |
| MetaListing.FlagsMarkNewestExactly | internal/meta/reads.go:192-245 | For every marker: the flags mark exactly the newest versions if and only if the page is taken to resume inside a key exactly when its first row is not the first of its key. |
| MetaListing.FlagsWrongExactly | internal/meta/reads.go:192-245 | For a marker that could be a key they do so unless the marker's key has versions, all of them older than the marker. |
| MetaListing.StaleMarkerHidesLatest | internal/meta/reads.go:206-208 | The failing input, in any store: with a marker above every version of its key, such as one whose version was deleted since, the key's newest version is listed as not the latest. |
| MetaListing.FirstIsNewest | internal/meta/reads.go:192-245 | The first row of a key in the listing order is its newest version, and no other row is. |
| MetaListing.NamesInOrder | internal/meta/reads.go:200-223 | For a marker that could be a key, the rows after its name are the rows after it in listing order. |
| MetaListing.HonestResume | internal/meta/reads.go:192-245 | A marker taken from a page's last row resumes right after it. |
| MetaListing.PageThrough | internal/meta/reads.go:209-245 | Pages of any sizes put end to end are the unpaged listing, latest flags included. |
| GatewayListing.CollectListing | internal/gateway/bucket.go:192-239 | The batch loop lists the remaining grouped entries up to the limit, with truncation and next token right. |
| GatewayListing.EntriesSpec | internal/gateway/bucket.go:200-239 | The walk emits each key's entry once, in token order. |
| GatewayListing.FaithfulExactlyWithoutTraps | internal/gateway/bucket.go:192-239 | Every resume point gives the rest of the unpaged grouping if and only if no listed key ends with the delimiter, ungrouped, with keys under it. |
| GatewayListing.TrapLosesEntries | internal/gateway/bucket.go:192-239 | Resuming at such a key loses entries. |
| GatewayListing.FolderIsTrap | internal/gateway/bucket.go:192-239 | Such keys are ordinary: a folder placeholder, listed from inside the folder. |
| GatewayListing.OneByteTrap | internal/gateway/bucket.go:192-239 | With a one-byte delimiter only a key equal to the prefix is such a key. |
| GatewayListing.GroupsOnce | internal/gateway/bucket.go:192-239 | Each common prefix is emitted once and stands for a listed key. |
| GatewayListing.PageThroughGroups | internal/gateway/bucket.go:192-239 | Without such keys, pages of any sizes put end to end are the unpaged grouping. |
| Wire.VarintRoundTrip | internal/meta/codec.go:31-37 | A varint reads back, whatever follows it. |
| Wire.FieldValueLocal | internal/meta/codec.go:205-215 | The length of an unknown field, nested groups included, depends only on its own bytes. |
| MetaWire.RoundTrip | internal/meta/codec.go:31-215 | Every well-formed message reads back from its own encoding, unknown fields included. |
| MetaRewrite.RewriteKeepsUnknown | internal/meta/codec.go:205-215 | For every flat message with repeated strings included: decode then encode keeps the unknown fields in order and verbatim, never grows, and reads back as the same message less its empty strings. |
| MetaRewrite.DeepReads | internal/meta/codec.go:62-215 | What a message with maps and nested messages decodes to fits its table and carries exactly the input's unknown fields; nested messages that do not keep theirs, and map entries, drop them. |
| MetaRewrite.DeepRewrite | internal/meta/codec.go:62-215 | And encoded again it keeps them, and reads back as the same message less its empty strings. |
| MetaWire.StringsSurviveExactly | internal/meta/codec.go:54-60 | A list of strings reads back if and only if none is empty. |
| MetaWire.DecodeLoop | internal/meta/codec.go:86-215 | The cursor loop is the message decoding of the theorems, failures included. |
| MetaDeep.DeepRoundTrip | internal/meta/codec.go:62-203 | Messages with nested messages and string maps read back. |
| MetaCodec.VersionRoundTrip | internal/meta/codec.go:260-352 | A version entry reads back, parts and unknown fields included. |
| MetaCodec.VersionRewrite | internal/meta/codec.go:260-352 | Whatever bytes decode as a version entry, rewriting keeps the fields this version does not know and reads back the same entry. |
| MetaCodec.RetentionKeepsUnknown | internal/meta/codec.go:12-24 | A retention update of any stored entry writes back the new retention, everything else it read, and the fields it does not know. |
| MetaCodec.BucketRoundTrip | internal/meta/codec.go:219-258 | A bucket record reads back. |
| MetaCodec.BucketRewrite | internal/meta/codec.go:219-258 | Rewriting what decodes keeps its unknown fields and reads back the same record. |
| MetaCodec.CurrentRoundTrip | internal/meta/codec.go:404-437 | A current record reads back. |
| MetaCodec.CurrentRewrite | internal/meta/codec.go:404-437 | Rewriting what decodes keeps its unknown fields and reads back the same record. |
| MetaCodec.UploadRoundTrip | internal/meta/codec.go:439-469 | An upload record reads back. |
| MetaCodec.UploadRewrite | internal/meta/codec.go:439-469 | Rewriting what decodes keeps its unknown fields and reads back the same record. |
| MetaCodec.PartRoundTrip | internal/meta/codec.go:471-531 | A part record reads back. |
| MetaCodec.PartRewrite | internal/meta/codec.go:471-531 | Rewriting what decodes keeps its unknown fields and reads back the same record. |
| MetaSystemCodec.SystemRoundTrip | internal/meta/codec.go:533-781 | Layout, posture, node and trust-bundle records read back. |
| MetaSystemCodec.SystemRewrite | internal/meta/codec.go:533-781 | Rewriting what decodes as one of them keeps its unknown fields; it reads back the same record, a layout less its empty member names. |
| MetaCodec.NameSaysKind | internal/meta/codec.go:811-844 | A row's name decides which record it holds, the cluster's own rows told apart by name. |
| MetaCodec.RecordRoundTrip | internal/meta/codec.go:811-844 | Every record of all nine kinds reads back from the row it is stored in. |
| MetaCodec.DumpReproduces | internal/meta/persist.go:46-67 | With the real codecs, restoring a dump reproduces the store. |
| MetaProposals.ProposalRoundTrip | internal/meta/proposal_codec.go:67-310 | Every command of all 25 kinds, as its fields, reads back from its own encoding. |
| MetaCommands.SentIsReceived | internal/meta/proposal_codec.go:67-310 | Every proposal whose strings fit is, sent and read again, the same proposal, and no other proposal is sent as those bytes. |
| MetaGolden.GoldenCreateBucket | internal/meta/proposal_codec_test.go:84-98 | The bytes of one proposal in full, as pinned. |
| MetaCommands.CommandMakesProposal | internal/meta/proposal_codec.go:67-310 | The fields a proposal is sent as, in the numbers of the source, make that proposal again, for all 25 kinds. |
| MetaCommands.FieldsMatchTable | internal/meta/proposal_codec.go:67-310 | Every field is of the kind its table gives it, so only lengths can keep a proposal from being sent. |
| MetaProposals.DecodeEnvelope | internal/meta/proposal_codec.go:278-310 | The envelope loop is the decoding of the theorem. |
| MetaProposals.DecodesOneKnownCommand | internal/meta/proposal_codec.go:278-310 | What decodes carries exactly one command and no field this version does not know. |
| RaftBoot.BootAndReplay | internal/raftnode/raftnode.go:366-440 | From any faithful durable store at or below the commit index, or none, any faithful snapshot, or none, and the tail, memory is the fold of the whole committed log. |
| RaftBoot.LifeOk | internal/raftnode/raftnode.go:366-440 | Over any life of any cluster, deliveries, compactions, snapshots streamed between replicas and restarts with the durable store kept, wiped or unreadable, every memory is the fold of what it has reached and every snapshot the fold to its label. |
| RaftBoot.Agreement | internal/raftnode/raftnode.go:366-440 | Replicas that have reached the same entry hold the same store. |
| RaftBoot.BootReplayIsFold | internal/raftnode/raftnode.go:366-440 | The boot result on values, for every machine, the metadata store among them. |
| RaftBoot.BootOk | internal/raftnode/raftnode.go:366-396 | Booting keeps the replica invariant. |
| RaftBoot.InstallOk | internal/raftnode/raftnode.go:419-440 | A streamed snapshot ahead of the replica keeps it. |
| RaftBoot.EntryOk | internal/raftnode/raftnode.go:863-932 | The next entry, skipped, refused, empty or applied, keeps it, though refused and empty entries never move the durable index. |
| RaftBoot.CompactOk | internal/raftnode/raftnode.go:773-805 | Compacting keeps it, and its snapshot is faithful unless it was due while the applied index was behind the durable one. |
| RaftBoot.CompactBounds | internal/raftnode/raftnode.go:773-805 | After a replica has considered compacting, fewer than the threshold of entries and no membership change stand between its snapshot and what it has applied. |
| MetaBoot.SnapshotFaithfulExactly | internal/raftnode/raftnode.go:773-805 | For every threshold and all indices at which a compaction is due: over every log and every careful life of a cluster that comes to those indices, the snapshot written next is the fold to its label, if and only if the applied index has caught up with the durable one. |
| MetaBoot.EarlyLife | internal/raftnode/raftnode.go:773-805 | For all indices with the applied one behind there is a careful life that comes to them, and the snapshot due there is not the fold to its label. |
| MetaBoot.EarlySnapshotAppliesTwice | internal/raftnode/raftnode.go:773-805 | Otherwise: a replica that compacts on a membership change while redelivery is behind its durable store, and then loses that store, applies an upload again and holds two versions where the log makes one. |
| MetaBoot.StreamedSnapshotDiverges | internal/raftnode/raftnode.go:773-805 | No store need be lost: the same snapshot streamed to a fresh replica leaves two replicas that applied the same entries with different stores. |
| MetaBoot.MixedStoreAppliesTwice | internal/raftnode/raftnode.go:388-396 | A durable store that was ahead and has an unreadable bucket row is rebuilt over: the first entry's changeset writes that row, so the disk again holds the whole of the store that was ahead, labelled with the first entry, and a boot from it applies the upload twice. |
| MetaBoot.DamagedDisk | internal/meta/persist.go:72-96 | Such a disk comes to be: the store's own code applies both entries and one row is damaged. |
| MetaBoot.EachApplyIsAVersion | internal/meta/apply.go:114-186 | In a bucket that keeps versions an upload applied any number of times leaves that many versions. |
| RaftBoot.Replica.Boot | internal/raftnode/raftnode.go:366-440 | Opening the durable store then restoring the snapshot is the boot of the theorems. |
| RaftBoot.Replica.AdoptStore | internal/raftnode/raftnode.go:403-412 | Adopting replaces memory, the durable copy and its index together. |
| RaftBoot.Replica.RestoreSnapshot | internal/raftnode/raftnode.go:419-440 | A snapshot is skipped exactly when the trusted durable store is at or past it. |
| RaftBoot.Replica.InstallSnapshot | internal/raftnode/raftnode.go:688-707 | A streamed snapshot ahead of the replica is restored and becomes the log's: the streaming step of the theorems. |
| RaftBoot.Replica.ApplyEntry | internal/raftnode/raftnode.go:863-932 | Applying an entry is the step of the theorems. |
| RaftBoot.Replica.MaybeSnapshot | internal/raftnode/raftnode.go:773-805 | Compacting is the step of the theorems, with no guard on the durable index. |
| RaftBoot.Replica.Replay | internal/raftnode/raftnode.go:863-931 | Redelivering the committed tail is the replay of the theorems. |
| RaftBoot.Perform | internal/raftnode/raftnode.go:686-760 | Every event of a life, performed by the replicas' own methods, is the step of the theorems. |
| RaftBoot.Live | internal/raftnode/raftnode.go:366-440 | Any life performed so, from fresh replicas, ends with what the theorems say of it. |
| MetaBoot.StoreReports | internal/meta/persist.go:72-96 | The metadata store reports every apply that changes it: one that leaves no changeset changed nothing. |
| MetaBoot.ReportsIsSound | internal/raftnode/raftnode.go:897-931 | That is exactly what the durable index needs of the store. |
| MetaBoot.ReplicaIsRun | internal/raftnode/raftnode.go:366-440 | Boot, of the metadata store: over any life of a cluster each replica's store is the run, from the empty store, of the proposals it has reached. |
| MetaBoot.ReplicaWellFormed | internal/raftnode/raftnode.go:366-440 | And it satisfies the store invariant while IDs have room. |
| CoordPut.PutRun | internal/coord/put.go:412-576 | In every interleaving of feeds, windows, stream outcomes in either phase, aborts and answers the callback fires at most once, and success means a closed encoder over the whole body and at least the floor of streams committed, counted exactly. |
| CoordAck.AckedExactly | internal/coord/put.go:475-554 | In every run without an abort or a framing failure: before all streams have reported the PUT is refused if and only if more have failed than the floor allows; when all have, it proposes if and only if the encoder is closed and at least min(k+1, k+m) succeeded; it is acknowledged, with their number, if and only if the proposal is answered well. |
| CoordAck.PutSucceeds | internal/coord/put.go:312-554 | For every profile, body and set of outcomes with at least min(k+1, k+m) successes there is a run acknowledged with their number over that body. |
| CoordAck.ClosesExactly | internal/coord/put.go:412-458 | A step that meets no failure closes the encoder if and only if the body has ended, the windows take all that is buffered and the closing burst fits. |
| CoordAck.PacedMoves | internal/coord/put.go:412-458 | It moves exactly as many bytes as the windows take, in order. |
| CoordAck.SkippedExactly | internal/coord/put.go:179-207 | A node known to be down counts as failed from the start if and only if at least min(k+1, k+m) nodes are not. |
| CoordPut.SuccessNeedsClose | internal/coord/put.go:506-514 | For every profile: a PUT all of whose streams report success before the encoder is closed is refused. |
| CoordPut.NextInv | internal/coord/put.go:412-576 | Every event keeps the operation's invariant. |
| CoordPut.BeganInv | internal/coord/put.go:179-207 | A PUT begins with at most width minus floor nodes skipped, and the floor is k+1 whenever there is parity. |
| CoordPut.SettledStays | internal/coord/put.go:572-576 | Once settled the outcome does not change and the callback does not fire again. |
| CoordPut.PutOp.Feed | internal/coord/put.go:312-325 | The handler is the run model's step. |
| CoordPut.PutOp.FeedEOF | internal/coord/put.go:327-337 | The handler is the run model's step. |
| CoordPut.PutOp.Step | internal/coord/put.go:412-458 | The handler is the run model's step. |
| CoordPut.PutOp.StreamDone | internal/coord/put.go:475-501 | The handler is the run model's step. |
| CoordPut.PutOp.Evaluate | internal/coord/put.go:506-514 | The handler is the run model's step. |
| CoordPut.PutOp.AbortOp | internal/coord/put.go:557-569 | The handler is the run model's step. |
| CoordPut.PutOp.Answered | internal/coord/put.go:519-554 | The handler is the run model's step. |
| CoordAdmission.LimitBounded | internal/coord/limiter.go:95-106 | Whatever the gradient, the limit stays in [4, 256]. |
| CoordAdmission.LimitMoves | internal/coord/limiter.go:95-106 | A healthy callback raises the limit by one up to 256; a slow one cuts it by a tenth, rounding down, to no less than 4. |
| CoordAdmission.AdmittedExactly | internal/coord/limiter.go:80-86 | An arrival is admitted if and only if fewer PUTs are unsettled than the limit. |
| CoordAdmission.InflightIsAdmittedMinusFinished | internal/coord/limiter.go:80-125 | In every interleaving of arrivals and of every PUT's events, in flight is exactly the admitted PUTs not yet settled. |
| CoordAdmission.Limiter.TryAcquire | internal/coord/limiter.go:80-86 | Admission succeeds exactly below the limit. |
| CoordAdmission.Limiter.Release | internal/coord/limiter.go:95-106 | A release lowers in-flight and moves the limit by the gradient. |
| CoordDurability.AckedFrameSurvives | internal/coord/put.go:475-554 | A PUT acknowledged with s durable shards can lose any s - k of its nodes and the frame is read back whole: the transfer protocol, placement and the codec put together. |
| CoordDurability.EncodePieces | internal/coord/put.go:412-474 | A frame in any pieces, run through the encoder and closed: refused exactly when the pieces do not add up, and otherwise streams fed what the encoder emitted carry the shard files of the frame. |
| CoordDurability.EachLossCostsOne | internal/place/place.go:160-257 | Placed nodes are distinct, so each lost node costs at most one committed shard. |
| CoordDurability.AckedSurvivesOne | internal/coord/put.go:179-207 | With parity an acknowledged PUT has at least k+1 durable shards. |
| CoordDurability.ReadFrame | internal/ec/reader.go:35-114 | Opening any k genuine shards and reading yields the whole frame. |
| CoordSweep.Run | internal/coord/repair.go:180-339 | If a sweep ends with nothing migrated, rebuilt, re-encoded, unrepairable or failed, every listed version verified at all of its new homes; whatever it reports, no scrubbed version lost a genuine shard and only rotted ones were removed, each one repaired is settled, and each one re-encoded reads as what its re-encode fetched. |
| CoordSweep.Sweep.NextItem | internal/coord/repair.go:180-252 | One version, exactly tallied. Scrubbed: healthy if and only if every shard verified, beyond help if and only if something must be rebuilt from fewer than k, failed only by a fault, no genuine shard lost. Re-encoded: counted if and only if acknowledged, and the shards then named read as what was fetched, the frame if the source shards were genuine; before the switch nothing changes. |
| CoordSweep.VerdictOnShards | internal/coord/repair.go:321-515 | The verdict and report on the shards themselves: healthy if and only if every written shard is at home; beyond help if and only if some is at neither home and fewer than k are at either; rebuilt counts those at neither, migrated those only at the old. |
| CoordSweep.Sweep.Recode | internal/coord/repair.go:124-134 | The answer of a re-encode, counted as re-encoded or failed, with what the shards the metadata then names read as, a switch answered with an error included. |
| CoordSweep.Sweep.Classify | internal/coord/repair.go:321-455 | Steady state: with k good shards and no fault every other slot ends with its written shard, except one silent at scrub that already holds something. |
| CoordSweep.Sweep.Migrate | internal/coord/repair.go:485-636 | Transition: what is good at its old home is copied, what is good at neither is rebuilt from k across both, with the counts reported. |
| CoordSweep.Sweep.InstallOne | internal/coord/repair.go:638-651 | A rotted leftover is deleted first; no other shard is; a home that already holds something keeps it. |
| CoordSweep.Sweep.InstallAll | internal/coord/repair.go:416-455 | Installs in turn, each counted, stopping at the first failure. |
| CoordSweep.Sweep.Survivors | internal/coord/repair.go:343-388 | The bodies fetched are k genuine shards, and there is always a piece to fetch. |
| CoordSweep.Sweep.Reconstructed | internal/coord/repair.go:390-410 | On those bodies the reconstruction cannot fail, and gives the written shards. |
| CoordSweep.MatchIsFile | internal/coord/repair.go:295-319 | A shard whose digest matches the entry is the one written. |
| CoordSweep.SoundKeepsGenuine | internal/coord/repair.go:630-651 | Work on a version never costs it a genuine shard. |
| CoordSweep.RepairedIsWholeExactly | internal/coord/repair.go:303-308 | A version reported repaired is whole if and only if no home that was silent at scrub held a rotted shard. |
| CoordSweep.SilentRotRun | internal/coord/repair.go:303-308 | A sweep of any version with any one home silent over a rotted shard: with a shard to spare it is counted as repaired, one shard rebuilt, and the rotted one stays; with none to spare it is reported beyond help. |
| CoordSweep.CleanIsHealthy | internal/cluster/layout.go:257-270 | Only versions verified everywhere leave the closing test true. |
| CoordReencode.ReencodeOp.ReadNow | internal/coord/reencode.go:15-25 | For any source shards, at any moment between callbacks: before the switch a read gives what the old homes read as; after it the frame that was fetched, if and only if enough new shards are left, which they are unless the switch was answered with an error; if the homes are what was written for a frame, that frame. |
| CoordReencode.Deliver | internal/coord/reencode.go:95-281 | Every callback, in any order, whatever the source shards hold, keeps: the version untouched until the switch, every new shard in place from the switch on unless it was answered with an error, and one report to the caller. |
| CoordReencode.ReencodeOp.Probed | internal/coord/reencode.go:95-112 | The last verify answer starts the fetch; it gives up only below k known shards, for an invalid new profile, or if k of the homes read as no frame. |
| CoordReencode.ReencodeOp.Fetched | internal/coord/reencode.go:115-161 | Pieces arriving in any order assemble the shards; one bad piece fails the whole. |
| CoordReencode.Plan | internal/coord/reencode.go:115-132 | The planned pieces tile exactly the first k known shards. |
| CoordReencode.AllLanded | internal/coord/reencode.go:141-160 | With every piece in, the buffers are the shards. |
| CoordReencode.Recode | internal/coord/reencode.go:166-199 | What was fetched encodes to the whole new shard set if and only if it reads as a frame and the new profile is valid. |
| CoordReencode.ReencodeOp.Wrote | internal/coord/reencode.go:204-233 | The switch is proposed exactly when every new shard is durable; any failure aborts and drops the new shards. |
| CoordReencode.ReencodeOp.Answered | internal/coord/reencode.go:237-265 | Old shards are dropped only after an acknowledged switch; an error drops the new shards, whether or not the switch committed. |
| CoordSwitch.SwitchLeads | internal/coord/reencode.go:237-257 | The switch a re-encode proposes is accepted if and only if the version is still there, an object stored whole; it then leads to exactly the new shards, under their address, profile and digests, and nothing else changes. |
| CoordSwitch.SwitchIsRecorded | internal/coord/reencode.go:237-257 | And is a version whose digests are those of the shards written, as the next sweep assumes. |
| CoordReencode.ShardsDetermineFrame | internal/coord/reencode.go:166-199 | k shards of a set determine the frame they were written for. |
| CoordReencode.KeepsFrameExactly | internal/coord/reencode.go:166-199 | For any fetched shards, whoever wrote them: the new shards are those of a frame if and only if the fetched ones read as that frame. |
| CoordReencode.MatchingDigestsKeepFrame | internal/coord/reencode.go:163-199 | Fetched shards that have their recorded digests keep the recorded frame. |
| CoordReencode.RottedSourceExactly | internal/coord/reencode.go:163-199 | Not conversely: with one byte of a data shard changed the digest differs, and the frame is kept if and only if the byte was padding. |
| CoordReencode.WrittenHold | internal/coord/reencode.go:163-199 | Homes written for a frame hold that frame, whichever k are fetched. |
| CoordReencode.RunAll | internal/coord/reencode.go:95-281 | With every callback a success, the operation ends well if and only if the new profile is valid and at least k shards are present whose first k read as a frame, and then the version holds that frame. |
| CoordReencode.RunToSwitch | internal/coord/reencode.go:95-248 | Up to the switch: proposed if and only if the new profile is valid and the first k shards present read as a frame. |
| CoordReencode.LostAnswerRun | internal/coord/reencode.go:252-256 | A switch that commits and whose answer is lost: the operation reports failure and drops the shards the metadata names, and the version does not read though its old shards are all intact. |
| CoordReencode.FinishedEnds | internal/coord/reencode.go:249-281 | Every operation that has finished, after any callbacks: acknowledged only if switched with every new shard in place; not switched only with the old homes untouched; switched only to shards of the frame that k of the homes read as. |
| CoordReencode.EndedReads | internal/coord/reencode.go:249-281 | After a switch the named shards read as a frame if and only if enough of them are left and what was fetched reads as it; after an acknowledged one they do read. |
| CoordReencode.RottedRun | internal/coord/reencode.go:95-281 | With one byte of a data shard changed, the other data shards in place and any parity present or not, it ends well, and the version holds the recorded frame if and only if the byte was padding. |

## Left out

- HTTP handlers, XML, request signing, the command line, the admin server and metrics: input, output and formatting.
- Certificates, join tokens, CA rotation, key wrapping and encryption of bodies: library calls; a wrapped key is an opaque byte string here.
- Raft itself, elections, membership changes and the pairing of proposals with waiters: the log is given and committed entries arrive in order.
- The stream framing, the write-ahead log's own format and the disk and clock seams: their contracts are assumed.
- The live layout reconcile and migration end to end: the sweep skips multipart versions and PUTs may span a layout change.
- Multipart versions in repair and rewrap: the code skips them.
- The degradation gradient, liveness marks and latency tracking: heuristics with easy properties; a gradient is any real and a down mark any boolean.
- Timeouts, liveness and eventual delivery: only safety is proved.
- The hash functions (FNV, the mixer, SHA-256, MD5): uninterpreted.
- Ranged and multipart GET, `ListUploads`, `ListUploadParts`, `ListBuckets`, `Locate` and delimiter grouping of version listings: they would add easy members beside the listings and reads that are here.
- DatapathRun.SuccessIsDurable: one receiver at a time; receivers share nothing, so a cluster is one run per node. Ranged reads are not part of the run.
- CoordPut.PutRun: the refill callback and its outstanding count are not modelled, only the window test that paces the encoder.
- CoordDurability.AckedFrameSurvives: that stream i is fed what the encoder emitted for shard i, and that a success the PUT counts is that stream's own, is the wiring of the callbacks and is taken as given; `EncodePieces` proves what the encoder emits. Compression and encryption of the body into the frame are not modelled.
- CoordAdmission.LimitBounded: the shrink is computed on reals and truncated; rounding of the 64-bit float product is not modelled.
- CoordSweep.Run: a version's questions are answered one after another, which is how the code asks for copies and installs; scrub and fetch answers arrive together. A re-encode enters as the end of a finished operation of `CoordReencode`. Node state changes only by the sweep's own requests.
- EcReader.Reader.ReadAt: a shard is a byte string, so the only read error is a short file. Sizes are unbounded, so the 64-bit products of a header with an outsized slice size do not wrap here.
- MetaListing.ListObjectVersions: the bucket name holds no NUL; for one that does, the code cuts row names at the wrong place.
- MetaProposals.ProposalRoundTrip: a command here is its number and its fields; `MetaCommands` carries it to the proposals themselves.
- RaftBoot.LifeOk: compactions and unreadable stores as the assumptions above say; that a snapshot not ahead of the replica is not installed is the raft library's doing; the log file's rotation is atomic and a snapshot's member list is not part of it.
