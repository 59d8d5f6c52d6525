# Verified model of the flow pipeline

A Dafny model of the stateful parts of the network agent: the stitch ring buffer, the cache and sum
rollups, the IPFIX and NetFlow v9 writer with its reader, the flow worker with its object pool, batching
and sampling, the Prometheus label vectors, the metadata match filter, device tags, CIDR scanning and
the merge of discovered devices.

Where the Go code changes state in place, so does the model: `RingBuffers.RingBuffer`,
`Stitching.Stitcher`, `CacheRollups.CacheRollup`, `SumRollups.SumRollup`, `FlowFormat.NetflowFormat`,
`FlowWorkers.FlowWorker`, `PromFormats.PromFormat`, `DeviceTags.SnmpDeviceConfig` and
`Discovery.SnmpConfig` are classes whose methods are proved against functions of the old state. What the
program is for is then proved of those functions, over whole runs.

Go's map iteration order is arbitrary, so a loop over a map takes any remaining key (`var k :| k in todo`),
and a property that is claimed for all orders is proved for all orders. Goroutines become steps that can
interleave: an add, a delivery and an export of the sum rollup, an arrival, a receive and a processing
step of a worker. Time is an integer the caller passes in. Unsigned 64-bit arithmetic is explicit (`U64`).

`dafny verify dfyconfig.toml` checks everything.

## Where the code is not what it is meant to be

Each of these is proved as an exact condition, or shown by a concrete run.

* **Ring buffer.** Deleting a key leaves its slot behind. If the key is put again, evicting the old slot
  makes the new one unreachable. A run behaves as documented exactly when no `Put` evicts such a slot
  (`RingModel.RunAsMeantIff`).
* **Sum rollup.** After the first export the smallest value starts from 0, so in every run a later export
  names the smallest value of its interval exactly when that is 0 (`SumModel.MinExactIff`, and one such run in
  `SumModel.LaterMinIsZero`). A definition with fewer names than it has sums for panics on the first record
  (`SumRollups.SumRollup.AddSum`, and one such definition in `SumRollups.SplitOverOneName`).
* **Cache rollup.** The emergency cleanup can remove the entry it was called for; the record is then lost
  (`CacheModel.RecordLostIff`, and one such run in `CacheModel.LosesRecord`). It empties the whole cache exactly
  when at most half of the entries are older than the newest one (`CacheModel.CleanupEmptiesIff`). It indexes past
  its list when it meets a single entry: a step does so exactly when it finds the cache empty and the memory limit
  too small for its key (`CacheModel.PanicsIff`), a run exactly when that happens to one of its keys, where
  the estimate of an empty cache is below zero by what cleanups gave back for unique values that were never charged
  (`CacheModel.RunPanicsIff`). No run panics if every key fits (`CacheModel.FittingNeverPanics`).
* **IPFIX.** The Length field wraps around at 512 flows and the reader then stops early without an error
  (`FlowRoundTrip.IpfixReceives`). The configured cap of 510 keeps clear of it.
* **Batches.** The loop limit `keep + batchSize` wraps around for a batch size near the largest integer,
  and then nothing is sent (`Batches.JchfExportSliceBounds`, `Batches.LargestSizeSendsNothing`).
* **Match filter.** The answer depends on the map's order in three ways: a missing forced entry that stops the
  loop meets a negate entry; or, without one, an entry that matches meets a missing forced entry that does not stop
  the loop; or an admin status that matches meets one that does not, where the rest would keep the metric. For all
  patterns and attributes two orders disagree exactly then (`MatchOrders.OrderMattersIff`), and there is an input
  for each way (`MatchOrders.NegateMeetsForced`, `MatchOrders.ResetMeetsMatch`, `MatchOrders.AdminBothWays`).
* **Device tags.** What a loop leaves depends on what it happens to visit exactly when some key has the prefix the
  loop takes off twice over (`DeviceTags.SameInAllOrdersIff`); and what the three loops leave, exactly when some key
  has a prefix twice over by the time its loop comes (`DeviceTags.SameRunIff`). After the prune fewer devices depend
  on it (`TagOutcomes.RepeatWithoutEffect`, `DeviceTags.NestingDepends`): for any tags, `TagOutcomes.OutcomesIff`
  gives exactly the values each tag can end with, and `TagOutcomes.SameTagsIff` says that all orders agree exactly
  when that is one value for every tag.
* **Stitching.** Endpoints and protocols are joined by a bar, so a key belongs to one pair of endpoints and one
  protocol exactly when none of them holds a bar (`StitchModel.SameKeyIff`).
* **CIDR scan.** Every IPv4 address is in `0.0.0.0/0`, so that scan never ends (`CidrScan.NeverLeaves`).
  An IPv6 block wider than the IPv4-mapped addresses and around them is left at the first of those,
  since the net package compares them as IPv4 addresses; every other scan visits exactly the addresses of its
  network (`CidrScan.ScanIsCompleteIff`).
* **Discovery.** A known device can be named as the key of a new one, and then which of the two is left depends on
  the map's order (`Discovery.NameTakesPlace`); a device that no other gets in the way of always ends where it
  belongs (`Discovery.SnmpConfig.Merge`).
* **Purge.** A device's own number of missed polls is meant to override the global one for that device, but
  it stays in force for the devices after it (`PurgeModel.PurgeAsConfiguredIff`), which can remove a device that is
  to be kept forever (`PurgeModel.OwnNumberRemovesAnother`).

## Model

| member | source | states |
|---|---|---|
| RingBuffers.RingBuffer.Put | pkg/stitch/ringbuffer/ringbuffer.go:48-67 | array, index, head, tail and size are updated as the queue of slots is: in place for a known key, else append after making room, which takes the evicted slot's key out of the index wherever it leads |
| RingBuffers.RingBuffer.Get | pkg/stitch/ringbuffer/ringbuffer.go:71-78 | a hit exactly when the key has a reachable slot, with that slot's value; else the zero value |
| RingBuffers.RingBuffer.GetAndDelete | pkg/stitch/ringbuffer/ringbuffer.go:81-91 | like Get, and afterwards the key's slot is still there but unreachable |
| RingBuffers.RingBuffer.Oldest | pkg/stitch/ringbuffer/ringbuffer.go:101-107 | the slot that goes next, reachable or not |
| RingBuffers.RingBuffer.Newest | pkg/stitch/ringbuffer/ringbuffer.go:111-117 | the slot that came last, reachable or not |
| RingBuffers.RingBuffer.Entries | pkg/stitch/ringbuffer/ringbuffer.go:120-127 | all slots in insertion order, unreachable ones included |
| RingModel.HitReturnsLastPut | pkg/stitch/ringbuffer/ringbuffer.go:48-91 | in every run a hit returns the value last put for the key, never one put before a delete |
| RingModel.KeyLivesItsLifetime | pkg/stitch/ringbuffer/ringbuffer.go:48-67 | a reachable key stays findable through operations that do not delete it exactly as long as their fresh appends do not outnumber the free slots and the slots before its oldest one |
| RingModel.FreshKeyLivesCapacity | pkg/stitch/ringbuffer/ringbuffer.go:48-67 | a key put when no slot holds it is findable through fewer than capacity further fresh appends and gone after capacity of them |
| RingModel.StepAsMeantIff | pkg/stitch/ringbuffer/ringbuffer.go:45-67 | one operation does what is documented exactly when it does not evict an unreachable slot whose key is reachable elsewhere |
| RingModel.LosingPutLosesOneKey | pkg/stitch/ringbuffer/ringbuffer.go:55-62 | such a Put makes exactly one other key unreachable: the evicted slot's |
| RingModel.RunAsMeantIff | pkg/stitch/ringbuffer/ringbuffer.go:45-91 | a run agrees with the documented buffer after every operation exactly when no operation in it is such a Put |
| RingModel.TombstoneTakesLiveKey | pkg/stitch/ringbuffer/ringbuffer.go:55-91 | a concrete run of four operations that loses a live key |
| RingModel.PutsAreBoundedOrderedMap | pkg/stitch/ringbuffer/ringbuffer.go:48-67 | without deletes the buffer is a map bounded to its capacity in insertion order with distinct keys |
| Stitching.Stitcher.Stitch | pkg/stitch/stitch.go:66-88 | a message's key is made of its endpoints, in the order its source port says, and its protocol; with a partner waiting under it, it gets the partner's five numbers, each under its own name and converted to signed, and consumes it; any other is stored; everything else of the message stays |
| Stitching.Stitcher.MarkPair | pkg/stitch/stitch.go:71-75 | the five numbers of the partner, each under its own name and congruent to it in its signed range, and nothing else |
| StitchModel.SameKeyIff | pkg/kt/types.go:366-372 | messages between the same endpoints in the same orientation over one protocol have one key, and no others have it exactly when neither endpoint nor the protocol holds a bar |
| StitchModel.ReverseSharesKeyIff | pkg/kt/types.go:366-372 | a flow and its reverse have one key exactly when one of the two ports is below 32768 and the other not, or the endpoints joined either way are the same, which without bars means that they are equal |
| StitchModel.WaitingIsLast | pkg/stitch/stitch.go:66-88 | in every run a waiting snapshot is that of the last message with its key, which itself was stored |
| StitchModel.MatchIsPrevious | pkg/stitch/stitch.go:70-77 | a match carries the snapshot of the previous message with an equal key |
| StitchModel.ConsumedOnce | pkg/stitch/stitch.go:70 | each of two matches consumes the snapshot of a stored message, and never both that of the same one |
| StitchModel.MatchedIff | pkg/stitch/stitch.go:66-88 | a stored message is matched by the next one with its key exactly when the messages stored in between do not outnumber the key's lifetime |
| StitchModel.Accounting | pkg/stitch/stitch.go:66-88 | messages in = stored + matched, and matched and still waiting together were stored before |
| FlowRecord.RecordIs124Bytes | pkg/formats/netflow/netflow.go:76-99 | every record is 124 bytes, a multiple of four, so padding is never written |
| FlowWire.IpfixOnTheWire | pkg/formats/netflow/ipfix.go:10-64 | for all flows, what stands at which byte of a message: version, length, template, and every element of every flow |
| FlowWire.Netflow9OnTheWire | pkg/formats/netflow/netflow9.go:10-58 | the same for a v9 packet |
| FlowFormat.NetflowFormat.EncodeTemplate | pkg/formats/netflow/netflow.go:358-370 | template 256 with its 22 elements, each with the id RFC 5102 gives it and its width, at their places |
| FlowFormat.NetflowFormat.AppendFlows | pkg/formats/netflow/ipfix.go:25-40 | one data set of 128 bytes for each flow, in order, with its record behind the header |
| FlowFormat.NetflowFormat.EncodeFlow | pkg/formats/netflow/netflow.go:372-454 | 124 bytes: each element at its place and in its width, among them company and device in the two halves of the observation point, and the end 60 seconds after the start |
| FlowFormat.NetflowFormat.PackIpfix | pkg/formats/netflow/ipfix.go:10-64 | nothing for no flows, else the bytes of the header, of the template set and of one data set for each flow, number by number |
| FlowFormat.NetflowFormat.Pack9 | pkg/formats/netflow/netflow9.go:10-58 | the same for v9, also for no flows |
| FlowFormat.NetflowFormat.SetChfField | pkg/formats/netflow/netflow.go:181-337 | stores one element, or nothing exactly when its value has not the type the element must have; a zero address is skipped |
| FlowFormat.NetflowFormat.DecodeRecord | pkg/formats/netflow/ipfix.go:87-100 | the elements of a record stored one after the other, none exactly when some element has not its type |
| FlowFormat.NetflowFormat.From | pkg/formats/netflow/netflow.go:151-174 | the flows of a message under the templates known so far, or an error, and the templates known after it, those before an error included |
| FlowCodec.IpfixLengthExactIff | pkg/formats/netflow/ipfix.go:44-48 | a message of n flows is 16 + 96 + 128 n bytes, and its Length field says so exactly for n up to 511 |
| FlowCodec.Netflow9CountExactIff | pkg/formats/netflow/netflow9.go:13-16 | the Count is the number of records exactly below 65535 flows |
| FlowCodec.ReadsDataSets | pkg/util/netflow/ipfix/packet.go:53-204 | by a known template the data sets read back as the raw elements of the flows in order |
| FlowCodec.ReadsDataSets9 | pkg/util/netflow/netflow9/packet.go:49-174 | the same for v9, as far as the Count allows |
| FlowRoundTrip.RecordDecodes | pkg/formats/netflow/netflow.go:181-337 | storing the elements of an encoded flow gives the flow: each field modulo its width, each address from exactly one of its two elements |
| FlowRoundTrip.IpfixReceives | pkg/formats/netflow/ipfix.go:10-100 | reading a packed message of n flows gives the first n mod 512 of them, in order, and no error |
| FlowRoundTrip.IpfixRoundTripIff | pkg/formats/netflow/ipfix.go:10-100 | so all flows come back exactly for up to 511 of them |
| FlowRoundTrip.Netflow9Receives | pkg/formats/netflow/netflow9.go:10-94 | reading a v9 packet gives as many of its first flows as its Count admits |
| FlowRoundTrip.Netflow9RoundTripIff | pkg/formats/netflow/netflow9.go:10-94 | so all flows come back exactly below 65535 of them |
| FlowRoundTrip.ReceivedWholeIff | pkg/formats/netflow/netflow.go:181-454 | a flow is received unchanged, but for its observation point, exactly when each of its parts fits its element |
| FlowErrors.IpfixCutIff | pkg/util/netflow/ipfix/packet.go:53-70 | a message that is cut off anywhere is read exactly when it is there as far as its Length says, and else is an error |
| FlowErrors.Netflow9CutIff | pkg/util/netflow/netflow9/packet.go:49-174 | a v9 packet that is cut off behind its template is an error exactly within a set, and else gives the flows that are left |
| FlowErrors.Netflow9CutEarly | pkg/util/netflow/netflow9/packet.go:49-174 | one that is cut off before that is an error |
| FlowErrors.OtherSets | pkg/util/netflow/ipfix/packet.go:103-145 | a legacy set id is an error that keeps the templates so far; reserved ids and unknown templates are skipped |
| FlowReader.DecodesIff | pkg/formats/netflow/netflow.go:181-337 | a record gives a flow exactly when every element of it has the type it must have |
| FlowReader.TranslatesIff | pkg/util/netflow/translate/translate.go:141-260 | numbers may come in fewer bytes than their type has, addresses and times not |
| FlowReader.AddrOfIs | pkg/formats/netflow/netflow.go:181-337 | four bytes are an IPv4 address, sixteen that map one too, any other sixteen an IPv6 address |
| FlowReader.ReadsRecordIff | pkg/util/netflow/ipfix/packet.go:603-680 | a record is read exactly when the first byte of its last field is there |
| RollupKeys.GetKey | pkg/rollup/rollup.go:269-322 | the texts a record shows for the dimensions, joined by the token: a column's text or decimal number, an entry of a map or that of the other direction, nothing or "undefined" for any other, and the two sides of a group |
| RollupKeys.SameKeyIff | pkg/rollup/rollup.go:269-322 | two records whose texts do not interfere with the token have one key exactly when they show the same text for every dimension |
| RollupKeys.ComboNames | pkg/rollup/rollup.go:328-338 | a column is named by itself, one of a map by its entry, a group by its own name |
| RollupKeys.SplitJoinIff | pkg/rollup/rollup.go:321 | for any token, splitting joined parts gives them back exactly when every part but the last is closed by the token and the last does not contain it |
| RollupKeys.OneCharacterToken | pkg/rollup/rollup.go:321 | for a one-character token that means that no part contains it |
| RollupKeys.KeyReadsBackIff | pkg/formats/nrm/nrm.go:316-321 | a consumer that splits a key gets the dimension values in order exactly under that condition |
| RollupKeys.ConsumersInRangeIff | pkg/rollup/rollup.go:328-338 | for any non-empty token, the consumers' lookups in the dimension names are in range exactly when there is a dimension and the key does not hold as many tokens, without overlap, as dimensions; splittable values are always in range |
| RollupKeys.CharacterInRangeIff | pkg/rollup/rollup.go:328-338 | for a one-character token, exactly when there is a dimension and no value contains the character |
| CacheRollups.CacheRollup.Add | pkg/rollup/cache.go:73-126 | the cache after a batch is the fold of the records that pass the filters, one by one, cleanups included |
| CacheRollups.CacheRollup.FindOrMake | pkg/rollup/cache.go:90-113 | the entry a record is counted in, which is in the cache or, if its own cleanup took it, no longer |
| CacheRollups.CacheEntry.Update | pkg/rollup/cache.go:115-192 | what one record changes in its entry, read off its columns: the number of records and the time; for unique rollups the texts and numbers of its metrics are added, for others their sum, as often as the record counts, with its bounds |
| CacheRollups.CacheRollup.AgeThreshold | pkg/rollup/cache.go:293-309 | exactly those entries are younger than the threshold that more than half of all are strictly older than |
| CacheRollups.CacheRollup.ShouldDoEmergencyCleanup | pkg/rollup/cache.go:263-282 | when a limit that is set is exceeded, and cleanups are on |
| CacheRollups.CacheRollup.EstimateEntrySize | pkg/rollup/cache.go:324-337 | overhead, key, and for unique rollups every value |
| RollupRows.ComputeValue | pkg/rollup/cache.go:129-155 | the exact sum of the numbers in a record's metric columns and entries, times its sample rate if sampling is on and there is one, modulo 2^64 |
| RollupRows.UniquesOfIff | pkg/rollup/cache.go:167-192 | the unique values of a record are exactly the texts of its metrics and their numbers in decimal |
| CacheRollups.CacheRollup.DoEmergencyCleanup | pkg/rollup/cache.go:284-322 | keeps exactly the entries that more than half of all entries are strictly older than, and gives back the estimates of the others |
| CacheRollups.CacheRollup.Export | pkg/rollup/cache.go:209-261 | the best of the entries, as many as configured, the largest first, each with its key, its sum or its number of unique values, its count, bounds and provider; no entry left out is better; and an empty cache |
| CacheModel.SurvivorsAreYounger | pkg/rollup/cache.go:299-318 | no survivor of a cleanup is as old as an entry removed |
| CacheModel.CleanupRemovesHalf | pkg/rollup/cache.go:303-318 | a cleanup of n entries removes at least n/2 + 1 of them |
| CacheModel.CleanupEmptiesIff | pkg/rollup/cache.go:303-318 | a cleanup leaves nothing exactly when at most half of the entries are older than the newest one |
| CacheModel.RecordLostIff | pkg/rollup/cache.go:89-116 | a record with a new key is lost exactly when its entry sets off a cleanup and at most half of the entries are older than its batch |
| CacheModel.LosesRecord | pkg/rollup/cache.go:89-116 | two records of one batch over a limit of one key: the second one empties the cache and is lost with the first |
| CacheModel.AddKeepsMaxKeys | pkg/rollup/cache.go:106-112 | an add to a cache within the configured number of keys ends within it |
| CacheModel.RunKeepsMaxKeys | pkg/rollup/cache.go:73-126 | so does every run from an empty cache |
| CacheModel.MemoryIsAccounted | pkg/rollup/cache.go:107-315 | over every run the memory estimate is the sum of what the entries were charged less what cleanups gave back for unique values, which are not charged; so it equals the sum of the entries' estimates without unique values, and never exceeds it with them |
| CacheModel.EstimateGrows | pkg/rollup/cache.go:324-337 | an entry is charged 150 bytes and its key, and for each unique value 20 bytes and its text |
| CacheModel.PanicsIff | pkg/rollup/cache.go:284-309 | with or without unique values an add panics exactly when the cache is empty and its memory estimate with the new key is over the limit |
| CacheModel.FirstPanicsIff | pkg/rollup/cache.go:284-309 | with or without unique values the first record panics exactly when cleanups are on and its key is over the memory limit on its own |
| CacheModel.FittingNeverPanics | pkg/rollup/cache.go:284-309 | with or without unique values no run panics if every key is within the memory limit on its own |
| CacheModel.RunPanicsIff | pkg/rollup/cache.go:284-309 | with or without unique values a run panics exactly when cleanups are on and an empty cache meets a key whose charge, less all that cleanups gave back without having been charged, is over the memory limit |
| CacheModel.ExceedsWithoutUniques | pkg/rollup/cache.go:284-309 | without unique values those are the keys over the memory limit on their own |
| RollupSums.CacheTracks | pkg/rollup/cache.go:73-165 | without cleanups each entry's sum, count, minimum and maximum are those of all records with its key, however batched; the empty key has none |
| RollupSums.CacheTracksUniques | pkg/rollup/cache.go:83-192 | without cleanups an entry of a unique rollup holds exactly the unique values of all records with its key, and their number |
| RollupSums.StatsBoundRecords | pkg/rollup/cache.go:157-164 | minimum and maximum are values of records with the key that bound all of them |
| RollupSums.OrderDoesNotMatter | pkg/rollup/cache.go:128-165 | the statistics of a key are the same for every order of the records |
| Ranking.TopK | pkg/rollup/stats.go:320-325 | the best K of a list for K > 0, else all of it, the largest first |
| Ranking.ExportKeepsBest | pkg/rollup/stats.go:310-326 | an export has min(K, n) rollups for K > 0 and n keys, the largest first, no key twice, each that of its key, and no key left out exceeds one that is kept |
| Ranking.AboveAtIff | pkg/rollup/cache.go:299-309 | the age at the middle of the sorted ages is above an age exactly when more than half of the ages are |
| SumRollups.SumRollup.Add | pkg/rollup/stats.go:171-179 | the records that pass the filters are added as one batch; a panic exactly when one passes and there are too few names |
| SumRollups.SumRollup.AddSum | pkg/rollup/stats.go:98-169 | a batch goes into the channel with per-key sums, count and bounds of its records, unless the channel is full; any record panics exactly when there are fewer names than split metrics, or no name at all without splitting |
| SumRollups.SplitOverOneName | pkg/rollup/stats.go:113-124 | two metrics split over one name: the first record panics |
| SumRollups.SumRollup.AddAmounts | pkg/rollup/stats.go:113-150 | each sum of a key grows by what the record's columns say for its name: the whole value for the first, or each metric for its own; and the value for the bounds; unless it indexes past the names |
| SumRollups.SumRollup.Deliver | pkg/rollup/stats.go:273-289 | the oldest batch of the channel is merged into what is held, key by key |
| SumRollups.SumRollup.Export | pkg/rollup/stats.go:290-331 | for the i-th name the best keys by their i-th sum, the largest first, none left out better, each with the count, bounds and provider held; and the loop starts over with 0 for the minimum |
| SumRollups.RunReports | pkg/rollup/stats.go:264-331 | over every run, a rollup handed out for the j-th interval has as its metric what the records of that interval add for its name and key, modulo 2^64, and the number, bounds and provider of those records |
| SumModel.RunAccounts | pkg/rollup/stats.go:264-299 | over every interleaving the accepted batches are, in order, those of the exported intervals, the open one and the channel, and each export reports exactly the records of its interval |
| SumModel.Conservation | pkg/rollup/stats.go:98-299 | for each key and name all exports and what is held add up to all records delivered, modulo 2^64 |
| SumModel.MinExactIff | pkg/rollup/stats.go:283-294 | over every run each export names the largest value of its interval and a lower bound of all values, which is the smallest exactly in the first interval or when that is 0 |
| SumModel.LaterMinIsZero | pkg/rollup/stats.go:283-294 | a run of two intervals with one record of value 5 each, whose second export says that the smallest value was 0 |
| SumModel.BoundsAreReached | pkg/rollup/stats.go:153-158 | the bounds of a batch are reached by some record and hold for all |
| SumModel.ReportedStep | pkg/rollup/stats.go:273-289 | merging a batch into an interval gives the interval as if its records had come in one batch |
| RollupAgreement.RollupsAgree | pkg/rollup/cache.go:128-165 | fed with the same records and without cleanups, with enough names and no two-level metric left out by splitting, the cache and the sum rollup know the same keys but for the empty one, and the cache's sum is the sum over all names modulo 2^64 |
| CacheModel.AddAllConcat | pkg/rollup/cache.go:83-126 | adding batch by batch is adding all records |
| WorkerModel.GiveBackNeverBlocks | pkg/cat/kentik.go:336-357 | in every reachable state pool and batch hold all objects together, so every give-back finds room and a flush on an empty pool brings all of them back |
| WorkerModel.RunKeepsPool | pkg/cat/kentik.go:348-396 | in every reachable state every object is in the pool or in the batch, once |
| WorkerModel.RunAccounts | pkg/cat/kentik.go:348-396 | over every run with flows arriving at any time, each accepted flow is waiting, at hand, batched, sent, left out of a sample, errored, filtered or dropped, exactly one of these for each time it was accepted |
| WorkerModel.OnlyPassingAreSent | pkg/cat/kentik.go:354-375 | over every run a flow is batched, sent or left out of a sample only if it converts and passes the filters; what is noted as errored does not convert, as filtered does not pass |
| WorkerModel.EachInItsCompany | pkg/cat/kentik.go:318-333 | what is serialized for a company holds exactly the flows of that company, as often as they were in the batch |
| WorkerModel.SentOrNot | pkg/cat/kentik.go:305-324 | a flush splits its batch into what is serialized, of the sample's size, and the rest |
| FlowWorkers.FlowWorker.Process | pkg/cat/kentik.go:350-384 | one flow is batched exactly if there is an object and it converts and passes, put back or dropped without one; a full batch or an empty pool sends the batch; every object in the pool is blank |
| FlowWorkers.FlowWorker.SendBytesOn | pkg/cat/kentik.go:281-344 | the batch goes to the rollups; a sampled one is shuffled, one in rate is kept, and each kept flow is the one at its place with its sample rate times the configured one modulo 2^32; any other is sent as it is; one list for each company in this order; and all objects go back blank |
| FlowWorkers.FlowWorker.Fill | pkg/cat/kentik.go:352-375 | an object leaves the pool for the batch only for a flow that converts and passes; otherwise it is back, blank |
| FlowWorkers.FlowWorker.Sample | pkg/cat/kentik.go:305-315 | the order of the batch after shuffling and the flows kept, each the one at its place with a raised rate exactly when the batch is sampled |
| FlowWorkers.FlowWorker.SplitByCompany | pkg/cat/kentik.go:318-324 | one list for each company |
| FlowWorkers.FlowWorker.Arrive | pkg/cat/kentik.go:252-259 | a flow is taken exactly when the channel has room |
| FlowWorkers.FlowWorker.GiveBack | pkg/cat/kentik.go:336-339 | every object is blanked before it goes back, in order |
| FlowInput.HandleFlow | pkg/cat/kentik.go:239-267 | flows of full resolution, in order, with 100 times their sample rate unless that is adjusted and a device if they had none, go to the channels in turn; each channel keeps its share as far as it has room, and sent and dropped add up |
| FlowInput.EveryIs | pkg/cat/kentik.go:239-264 | the share of a channel is every n-th flow, from its own first one to the last turn |
| Batches.JchfExportSliceBounds | pkg/cat/kkc.go:488-504 | slices from 0 to keep, contiguous, none empty, all but the last of the full size; none at all when the limit wraps around |
| Batches.LargestSizeSendsNothing | pkg/cat/kkc.go:488-504 | one message and the largest batch size: there is no slice |
| Batches.TilesCover | pkg/cat/kkc.go:486-504 | such slices hold the kept messages once and in order, and number ceil(keep / size) |
| Batches.ExportJchfBatches | pkg/cat/kkc.go:508-518 | the kept messages in order, in batches of at most the effective size, or nothing when the loop limit wraps around |
| Batches.HandleInput | pkg/cat/kkc.go:521-565 | what is exported is what passes the filters as it is; or, from more than one message, of which the first asks for it, a sample of it of size KeepOf: each message the one at its place after shuffling with its sample rate times the configured one modulo 2^32; in batches of at most the effective size |
| Batches.KeepBounds | pkg/cat/kkc.go:550-554 | a sample has at least one message and at most all, one in rate rounded down; without one all are kept |
| Filters.Reduce | pkg/cat/kkc.go:633-649 | the messages that pass all filters, all of them and in order; the rollups filter their records in the same way |
| Batches.ShrinksToOne | pkg/cat/kkc.go:463-467 | repeated shrinking takes a quarter off, rounded down, until a size is 1, and never less |
| PromFormats.AddTagLabels | pkg/formats/prom/prom.go:39-53 | in every map order the tags of a name stay numbered 0 to n - 1, each once, old ones keep their number, and tags of digits only are left out |
| PromFormats.GetTagValues | pkg/formats/prom/prom.go:55-70 | one value for each position, that of the tag with the position or empty |
| PromFormats.ToLabels | pkg/formats/prom/prom.go:107-124 | one label for each position: that of the tag, with underscores for dots and blanks and nothing else changed |
| PromFormats.PromFormat.Write | pkg/formats/prom/prom.go:139-164 | a data point of a name not seen often enough only adds its tags; any other goes to its name's vector, made on first use |
| PromFormats.PromFormat.To | pkg/formats/prom/prom.go:126-167 | every data point is counted or written, step by step |
| PromModel.Frozen | pkg/formats/prom/prom.go:139-163 | over every run a vector's labels and its tags' positions never change once it exists |
| PromModel.WrittenInPlace | pkg/formats/prom/prom.go:151-163 | every data point ever written passes as many values as its vector has labels, each at its own label's position |
| PromModel.LabelsDistinctIff | pkg/formats/prom/prom.go:109-117 | the labels of a vector are distinct exactly when no two tags differ only in dots, blanks and underscores |
| MatchFilters.DropOnFilter | pkg/formats/util/util.go:164-227 | the answer is that of carrying one state through all entries in some order, up to where it stops |
| MatchFilters.CheckFilter | pkg/formats/util/util.go:229-264 | what one attribute of an entry does to the state, case by case; an interface attribute does nothing for a metric that is not one of an interface |
| MatchFilters.ForcedIff | pkg/formats/util/util.go:170-181 | an exclamation mark in front forces an entry, and DOES_NOT_MATCH negates, forced or not |
| MatchFilters.AttributesOf | pkg/formats/util/util.go:170-186 | the attributes of an entry are what stands between double bars, in parentheses or not, forced or not |
| MatchOrders.SameInAllOrders | pkg/formats/util/util.go:164-227 | unless it depends on the order, the answer is in every order: admin status mismatches, or a forced entry that stops the loop is missing, or something was tested and nothing matched, the last turned around by a negate entry |
| MatchOrders.OrderMattersIff | pkg/formats/util/util.go:164-264 | for all patterns and attributes, two orders disagree exactly when a missing forced entry that stops the loop meets a negate entry, or without one both answers of the admin status meet where the rest would keep the metric, or, without an admin status that mismatches, a match meets a missing forced entry that does not stop the loop |
| MatchOrders.NegateMeetsForced | pkg/formats/util/util.go:170-205 | a negate and a missing forced entry for which two orders disagree |
| MatchOrders.ResetMeetsMatch | pkg/formats/util/util.go:229-264 | a missing forced entry whose last attribute is skipped and an entry that matches, for which two orders disagree |
| MatchOrders.AdminBothWays | pkg/formats/util/util.go:229-264 | the admin status in two entries, one of which matches, for which two orders disagree |
| DeviceTags.PartsIff | pkg/inputs/snmp/snmp.go:520-535 | a prefixed tag splits into a provider without a colon and the rest, and into nothing else |
| DeviceTags.Set | pkg/inputs/snmp/snmp.go:538-547 | the map after a given sequence of visits |
| DeviceTags.Prune | pkg/inputs/snmp/snmp.go:549-555 | exactly the tags that do not begin with "provider:" |
| DeviceTags.SnmpDeviceConfig.SetDeviceTagsAndMatch | pkg/inputs/snmp/snmp.go:537-572 | both maps end as the three loops and the prune leave them, whatever those visit |
| DeviceTags.SetInAllOrders | pkg/inputs/snmp/snmp.go:538-547 | whatever a loop visits and in whatever order, if no key repeats its prefix, the prefix is taken off and does not overwrite a plain tag |
| DeviceTags.SameInAllOrdersIff | pkg/inputs/snmp/snmp.go:538-547 | a loop leaves the same map in all orders exactly when no key repeats its prefix |
| DeviceTags.SameRunIff | pkg/inputs/snmp/snmp.go:537-572 | the three loops leave the same maps in all orders exactly when no key repeats a prefix by the time its loop comes |
| DeviceTags.ValueInAllOrders | pkg/inputs/snmp/snmp.go:537-572 | in closed form, what each tag ends with if no key repeats a prefix by the time its loop comes, other prefixes behind prefixes included, and that no prefixed tag is left |
| DeviceTags.Precedence | pkg/inputs/snmp/snmp.go:537-572 | with no prefix behind a prefix, a tag ends with its plain value, else that of the device, the provider or all devices, and no prefixed tag is left |
| DeviceTags.NestingDepends | pkg/inputs/snmp/snmp.go:537-572 | a tag with a prefix twice over for which two possible runs end differently |
| TagOutcomes.OutcomesIff | pkg/inputs/snmp/snmp.go:537-572 | for any tags, of all that the three loops may visit: the values a tag without a prefix can end with are exactly the possible ones, which follow from the map at the start by how often each prefix stands before the tag |
| TagOutcomes.SameTagsIff | pkg/inputs/snmp/snmp.go:537-572 | the tags after the prune are the same in all orders exactly when every tag without a prefix has one possible value |
| TagOutcomes.RepeatWithoutEffect | pkg/inputs/snmp/snmp.go:537-572 | a tag with a prefix twice over that makes no difference after the prune |
| Addresses.IncrementIP | pkg/inputs/snmp/scan.go:122-129 | the bytes become those of the next address |
| Addresses.NextCounts | pkg/inputs/snmp/scan.go:120-129 | the next address is one more as a big-endian number, modulo 256 to its length |
| Addresses.SameNetworkIff | pkg/inputs/snmp/scan.go:45-52 | masked bytes agree exactly when the numbers agree above the bits behind the prefix |
| CidrScan.ContainsIff | pkg/inputs/snmp/scan.go:52 | a block contains the addresses of its network, except IPv4-mapped ones within a wider IPv6 block |
| CidrScan.ScanCIDR | pkg/inputs/snmp/scan.go:40-76 | the scan ends, having visited the addresses from the block's first on, each one more than the one before |
| CidrScan.ScanIsCompleteIff | pkg/inputs/snmp/scan.go:45-72 | the addresses a scan visits are in the network, each once, and they are all of it exactly unless the block is IPv6, wider than the mapped addresses and around them |
| CidrScan.NeverLeaves | pkg/inputs/snmp/scan.go:52 | every IPv4 address is in the block of all of them, so that scan does not end |
| Discovery.SnmpConfig.AddDevices | pkg/inputs/snmp/disco.go:386-490 | final count = original count + added and delta = -added; the merge puts every found device where it belongs; replaced counts those that were not added; after the duplicates went no engine ID occurs twice and none is lost; an error exactly when the purge meets an invalid number |
| Discovery.SnmpConfig.Merge | pkg/inputs/snmp/disco.go:413-442 | nothing goes; a found device that no other gets in the way of ends under its own key: itself under name, two underscores and address if that is new, else the old one marked as checked or replaced; what is no found device's business stays; as many are added as have new keys if none is in another's way |
| Discovery.NewAreAlone | pkg/inputs/snmp/disco.go:413-428 | devices found at new addresses never get in each other's way, whatever their names, as long as addresses hold no underscore |
| Discovery.NameTakesPlace | pkg/inputs/snmp/disco.go:413-428 | a known device that is named as the key of a new one: what is left depends on the order |
| Discovery.SnmpConfig.MergeOne | pkg/inputs/snmp/disco.go:413-441 | the one entry a found device is put under, and what is put there |
| Discovery.SnmpConfig.Dedupe | pkg/inputs/snmp/disco.go:444-456 | one device is left for every engine ID, and every device without one |
| Discovery.SnmpConfig.PurgeOne | pkg/inputs/snmp/disco.go:461-482 | one device goes exactly when the number in force is positive and it has not been seen for so many polls and 15 minutes; below -1 is an error; the number, its own or the one carried on, is carried on |
| Discovery.SnmpConfig.PurgeDevices | pkg/inputs/snmp/disco.go:458-484 | the devices left are those that carrying the number through some order leaves |
| PurgeModel.AllAsConfigured | pkg/inputs/snmp/disco.go:460-483 | in every order the purge does what is configured, if no device's own number would make a difference to a device without one |
| PurgeModel.PurgeAsConfiguredIff | pkg/inputs/snmp/disco.go:460-471 | it does so in every order exactly then, or when some own number is invalid |
| PurgeModel.OwnNumberRemovesAnother | pkg/inputs/snmp/disco.go:460-483 | two devices, one to be kept forever, that goes or stays with the order |

## Left out

- CacheRollups.CacheRollup.Add: asks its caller that no cleanup meets a single entry, where the program panics; CacheModel.PanicsIff says when that is, and CacheModel.FittingNeverPanics what a configuration needs for it never to happen.
- CacheRollups.CacheRollup.DoEmergencyCleanup: asks for a cache of any size but one, for the same reason; the clock it reads on its own does not matter to what it keeps.
- DeviceTags.ValueInAllOrders: a closed form for tags whose prefixes do not repeat; for all others TagOutcomes.OutcomesIff gives the possible values by a recursion over the loops.
- SumModel.RunAccounts: the batches of a run are those that did not panic, so for a definition with too few names only empty ones occur.
- Batches.ShrinksToOne: exact arithmetic for the factor 0.75, which float64 agrees with below 2^51.
- Batches.KeepBounds: integer division for the quotient in float64, which agree below 2^53.
- FlowCodec.ReadsDataSets: the readers reject options templates and elements of variable length, and leave enterprise elements untranslated; the writer emits none of them.
- Discovery.SnmpConfig.AddDevices: one time for the whole purge, no overflow of durations, and of what a replaced device hands over only its purge number.
- Metrics of rollups are a function of the sum or cardinality into the reals; the conversion to float64 is not modelled.
- Addresses of flows are parsed values; their text, and the text of MAC addresses, is not modelled, and protocol names and numbers are two tables with the consistency the program builds them with.
- Devices and cached channel batches are values; the maps, queues and objects that hold them are updated in place.
- The slow path of the stats rollup (mean, median, percentiles) and the cardinality estimates of the unique rollup.
- Rollups written to Prometheus, which share the vectors' map but not their tags.
- JSON input, which does not give its pool object back on a parse error, and external enrichers, which replace the batch.
- Input and output of every kind, serialization to other formats, metrics, logging, configuration files, and the library code for sorting, shuffling and regular expressions, of which only the meaning is used.
- RingBuffer.Keys, Contains and Len, which read off what Entries and Get do.
