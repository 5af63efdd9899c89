# Metrics: history, alerts and hand-offs, verified

This project models the parts of the Metrics application that keep state for a long time
or hand it from one place to another, and proves what they promise over whole runs.
Everything is Dafny; `dafny verify dfyconfig.toml` checks the project.

- **History engine** (`app/store.c`, `app/persist.c`, `app/main.c`, `app/metrics.c`). Three
  in-memory rings take every sample; the two coarse ones hold bucket means. Each ring is
  mirrored into a circular file whose records are written at once and whose index is
  written every 60 records. A start reads the file in the layout it was saved with, moves
  readings to today's columns by metric id, lays the file out again and replays it.
  `Rings`, `Buckets`, `Sizing`, `Stores`, `Query` are the memory side; `Bytes`, `Layout`,
  `Mirror`, `PersistFiles` the file side down to bytes and offsets; `Recovery` says what a
  crash leaves, between two writes or inside an open; `History` relates all of it to plain
  lists over every run; `CoarseHistory` puts the open bucket in front, and `CoarseApart`
  follows the gaps between its rows over all process lives. `ProgramRuns` is the program
  over its steps (ticks, retries, stops, starts, crashes), and `Application` the object that
  takes them: it ticks, opens, retries, closes and rebuilds.
- **Alerts** (`app/alerts.c`). `Debounce` is one rule over a history of observations,
  `RuleTable` the construction of the table at a start, `AlertRuns` edits and evaluations
  over whole runs, `AlertEffects` what somebody sees of them who knows only the table, the
  rows and the clock, `Alerts` the table of 64 slots that is shifted and compacted in place.
- **InfluxDB writer** (`app/influx.c`). `InfluxHandoff` interleaves the two threads step by
  step; `LineProtocol` prints a sample and reads it back.
- **MQTT discovery** (`app/mqtt.c`). `Discovery` is one discovery run, `MqttRuns` the client
  over connects, losses, and changes of settings and metrics, `Mqtt` the object itself.
- **Forms** (`app/api.c`) and **CPU accounting** (`app/collect.c`).

Where the program works in place, the model does too: `Stores.Tier`, `Stores.Store`,
`PersistFiles.File`, `PersistFiles.Persist`, `Application.Line`, `Application.App`,
`Registry.MetricRegistry`, `Alerts.Alerts`, `Mqtt.Mqtt` and `CpuAccounting.CpuSampler` are
classes over arrays and fields. Each method's contract equates the new state with a
function of the old one, and the theorems are about those functions.

## Where the code does something else than it says

Each of these is stated as a lemma with its exact condition.

- "An unclean shutdown loses the last few samples" (`app/persist.c:4`). Outside the opens
  that holds while the file has not wrapped past its index: what is lost are the samples
  appended since the index was written, fewer than 60 between two steps
  (`Recovery.CrashLosesTail`, `History.CrashRestart`) and at most 60 inside an append
  (`History.CutAppendRestart`). A full file loses nothing then but comes back *rotated*,
  with its newest samples first (`Recovery.CrashRotatesFullFile`,
  `Recovery.CrashKeepsOrderIff`). A crash *inside an open* is another matter, since an open
  empties the file's index and writes all samples again: only what the replay had flushed
  comes back. That is nothing at all before the sixtieth record, and the loss is under 60
  samples if and only if every full sixty had been flushed (`History.CutReplayLoss`). A
  crash between the new id table and its header even reads the old records under the new
  ids (`Recovery.TornTableLoads`), and where the new table is longer and has run into the
  records, reads the letters of ids as samples with a time (`Recovery.LongTableLoads`,
  `Recovery.FirstRecordShowsId`).
- "A slower sample rate buys a longer fine window" (`app/store.c:53`): the capacity is
  divided by the interval, so with memory enough the window of a new store stays at 30
  minutes for intervals 1 to 6; from 7 on the minimum of 300 samples takes over. Where
  memory is so short that the tiers are scaled, 2 seconds and more do buy a longer window
  (`Sizing.SlowerSamplingLongerWindowIff`, `Sizing.SmallMemoryWindow`). A change of the rate
  while the program runs (`app/main.c:307-317`) keeps the store it has: 1800 slots made at
  1 second then hold 5 hours at 10, and the next start or rebuild, whose store has
  another interval, takes none of it over (`History.CleanRestart`).
- A query over 1,200,000 seconds or more on a coarse tier of more than 4000 slots can
  exceed 4000 points and then loses the *newest* ones (`Query.RequestCompleteIff`,
  `Query.LongQueryLosesNewest`).
- "Only once per broker" withdrawals (`app/mqtt.c:164`): turning `discovery_all` off during
  an outage leaves the extra entities retained (`MqttRuns.OutageLeavesExtras`). Even a
  withdrawing run is exact only if no wanted metric shares its topic with another
  (`Discovery.WithdrawingIsExactIff`); ids share one when they differ in punctuation only
  (`Discovery.SharedTopicIff`). The ids of a storage area and of the area with
  `_` and the first one's last part behind it, both cut to 63 characters, do so if and only
  if the area has at most 59 letters and at least 59 together with that part
  (`Discovery.AreasCollideIff`). So under the default settings the essential `usage` of an
  area of 54 letters is withdrawn where there is also an area with "_usage" behind that name
  (`Discovery.EssentialAreaWithdrawn`).
- A rebuild of the registry (`app/main.c:207-233`) and an edit of the transmitted metrics
  (`app/main.c:586-594`) run no discovery: a new metric waits for the next connect
  (`MqttRuns.NewMetricWaits`), and the entity of one that is gone is never withdrawn while
  the registry lacks it (`MqttRuns.GoneMetricStays`).
- "A clean stop has to retract online itself" (`app/mqtt.c:253`): it does so under the new
  topic prefix, so a change of prefix leaves the old status topic at "online"
  (`MqttRuns.OnlineStaysIff`).
- "A queued payload means the last write is still running" (`app/influx.c:268`): it means
  only that the worker has not fetched it yet, and the drop is needless exactly when the
  worker could have (`InfluxHandoff.DroppedWhileIdleIff`).
- "Every filesystem gets a space rule" (`app/alerts.c:184`). With room in the table it does
  if and only if the rule's id, cut to 47 characters, is the uncut id for some filesystem
  here, and either a saved rule of that id is this very rule, or none was saved and no
  earlier filesystem has the same cut id (`RuleTable.SpaceRulePresentIff`). So a filesystem
  stays unwatched where a user's rule has taken the id (`RuleTable.UsersRuleStandsIn`), and
  where another's longer name was cut to the same id (`RuleTable.CutIdShadows`). A default
  rule likewise gives way to any saved rule of its id (`RuleTable.DefaultPresentIff`).
- "Or the existing one if id is a dup" (`app/metrics.h:34`): an id of 64 or more characters
  is not recognised when it comes again (`Registry.LongIdRegisteredTwice`).
- A changed sample interval abandons the fine tier's saved history
  (`History.CleanRestart`); a rebuild while no storage is open drops what was
  only in memory (`History.RebuildResetsToFile`).
- The usage guard against falling counters does not cover the shares beside it: a share is
  in 0 to 100 only if its wrapped growth is at most the total's, which a falling iowait or
  a falling idle counter can break (`CpuAccounting.SharesInRangeIff`).
- A rebuild forgets that a rule was firing, so the next fire comes without a clear in
  between (`AlertRuns.RebuildBreaksIff`); a rule that breaches before and after does just
  that (`AlertRuns.RefiresAfterRebuild`, `AlertRuns.CpuHighRefires`).
- A save with an id of 48 or more characters whose stored form is new has no answer
  (`AlertRuns.FaultsIff`).
- A clean stop loses the samples of the open buckets
  (`CoarseHistory.CleanStopLosesOpenBucket`).
- A newline in an escaped tag or measurement breaks the line (`LineProtocol.LineReadsBack`).

## Model

| member | source | states |
|---|---|---|
| Samples.LastNOfTrimmed | app/store.c:126-132 | trimming to the newest n early never changes what a later trim to n keeps |
| Rings.AppendDenotes | app/store.c:126-132 | one append appends to the ring's list and drops its oldest entry when full |
| Rings.AppendAllDenotes | app/store.c:210-216 | any run of appends or restores leaves the last `capacity` entries of the old list followed by the new ones |
| Rings.SlotOfCases | app/store.c:235-236 | where the index-th oldest entry lies, without modular arithmetic |
| Rings.AppendAllSplit | app/store.c:210-216 | restoring two lists one after the other is restoring their concatenation |
| Rings.HeadAfter | app/persist.c:314-325 | where the head stands after n appends: a restored ring and its file ring differ by a rotation |
| Bytes.Splice | app/persist.c:134-143 | a positioned write replaces its range, keeps every byte outside and fills a gap past the end with zeros |
| Bytes.SpliceElsewhere | app/persist.c:134-143 | a range that does not meet the written one reads as before |
| Bytes.Resize | app/persist.c:231-233 | setting the file size cuts it or extends it with zeros |
| Bytes.DecodeEncodeU32 | app/persist.c:145-157 | 32-bit header fields read back as written |
| Bytes.DecodeEncodeI64 | app/persist.c:333-342 | signed 64-bit timestamps read back as written |
| Layout.DecodeEncodeHeader | app/persist.c:145-157 | a written header is recognised and gives back all its fields, whatever follows it |
| Layout.DecodeEncodeIds | app/persist.c:224-228 | an id table reads back as the ids, each cut to 63 characters |
| Layout.DecodeEncodeRecord | app/persist.c:333-342 | a record reads back as its timestamp and readings, absent ones included |
| Layout.SlotInside | app/persist.c:231-233 | every slot lies behind header and id table and inside the sized file |
| Layout.SlotsOrdered | app/persist.c:333-342 | slots of different numbers do not overlap |
| Layout.RecordWrite | app/persist.c:333-342 | writing one slot changes that slot to the sample and no other slot, no id and no header byte |
| Layout.SlotsUntouched | app/persist.c:219-234 | bytes written outside the slots leave every record as it was |
| Layout.HeaderWrite | app/persist.c:145-157 | writing the header changes the index and leaves ids and slots alone |
| Registry.Find | app/metrics.c:18-24 | the first index with the id, negative exactly when there is none |
| Registry.RegisteredDistinct | app/metrics.c:26-49 | ids stay unique exactly when the id is known in full or its first 63 characters are new |
| Registry.LongIdRegisteredTwice | app/metrics.c:26-49 | into any table, an id of 64 or more characters registered twice makes a duplicate |
| Registry.RegisterAllDistinct | app/metrics.c:26-49 | with ids that fit, the table lists exactly the wanted ids, each once |
| Registry.MetricRegistry.MetricsFind | app/metrics.c:18-24 | the search loop returns the first index with the id, or -1 |
| Registry.MetricRegistry.Grow | app/metrics.c:35-40 | doubling the table keeps every definition |
| Registry.MetricRegistry.Register | app/metrics.c:26-49 | a known id changes nothing and returns its index; a new one is added at the end with its defaults |
| Mirror.RemapById | app/persist.c:262-297 | a moved row gives each current id the value it was saved with, and absence to an id that was not saved |
| Mirror.RemapIdentity | app/persist.c:262-297 | with unchanged distinct ids moving a row changes nothing |
| Mirror.RecoveredAt | app/persist.c:276-301 | the stale view entry by entry: the newest pending samples where they have overwritten the oldest covered ones, the covered ones elsewhere |
| Mirror.StaleAppend | app/persist.c:329-346 | one more record behind the back of a stale index takes the place of the entry the stale index reads there |
| Mirror.TracksAppend | app/persist.c:329-346 | the file's ring and the stale index both follow an append |
| Mirror.TracksFlush | app/persist.c:344-345 | a fresh index covers every record written |
| Recovery.InitialiseMirrors | app/persist.c:219-234 | laying a file out over any earlier contents starts an empty mirror |
| Recovery.AppendMirrors | app/persist.c:329-346 | an append joins the pending ones until the sixtieth, which makes all of them flushed |
| Recovery.LoadReadsIndex | app/persist.c:236-312 | a load of our own file gives exactly the entries its header's index covers, moved by id, in order |
| Recovery.LoadMirrored | app/persist.c:236-312 | at any moment the bytes on disk load as the stale view of flushed and pending samples |
| Recovery.RunMirrors | app/persist.c:314-346 | after any number of appends the disk index covers all but the last n mod 60 of them |
| Recovery.CrashRecoveryExact | app/persist.c:145-346 | a crash after any number of appends: what the next load returns, exactly |
| Recovery.IndexEverySixty | app/persist.c:26-346 | when the index reaches the disk: of n records since the layout, with no close between, the header on disk covers the first 60 * (n / 60), in a ring of the file's capacity |
| Recovery.LoadEverySixty | app/persist.c:236-346 | so a load after a crash, before the file wraps past its index, gives exactly the newest `capacity` of those, moved by id |
| Recovery.SixtiethRecord | app/persist.c:344-345 | after 59 records nothing comes back, after 60 all of them |
| Recovery.LaidOutOnDisk | app/persist.c:22-37 | the file in numbers: its size, and the offset and value of every header field |
| Recovery.IdOnDisk | app/persist.c:224-228 | each id fills 64 bytes from offset 4096 on, its letters and a zero |
| Recovery.RecordOnDisk | app/persist.c:333-342 | each record follows at its offset, the time in eight bytes and four bytes a reading |
| Recovery.RefusedFiles | app/persist.c:240-254 | foreign files, other versions and intervals, files without slots, and metric sets that are empty or larger than 100000 give nothing back |
| Recovery.CrashLosesTail | app/persist.c:329-346 | of the appends since the file was laid out, before it wraps past its index, a crash between two of them loses only the fewer than 60 since the flush |
| Recovery.TornTableLoads | app/persist.c:224-230 | a crash after the new id table and before its header: the old records come back under the new ids, and under the old ones where the new table is shorter |
| Recovery.LongTableLoads | app/persist.c:224-230 | the same crash where the new table is longer than the old one: the columns take the first of the new ids, every record behind the end of the table comes back as it was, and the bytes of the records before are read as the letters written over them, a record being restored if the time it then shows is positive |
| Recovery.FirstRecordShowsId | app/persist.c:286-289 | the record in the first slot then is one with a time, made of the first letters of the first id past the old table, if and only if that id is not empty and its eighth letter, if there is one, is plain ASCII |
| Recovery.EmptyIndexLoadsNothing | app/persist.c:219-234 | from the header of a layout on, until the first flush, the file gives nothing back, whatever records it holds |
| Recovery.CrashRotatesFullFile | app/persist.c:276-301 | of a file whose index says full, a load returns the newest `capacity` samples rotated by the appends since the flush |
| Recovery.CrashOfFullFileLosesNothing | app/persist.c:276-301 | as a multiset nothing of the newest `capacity` samples is lost then |
| Recovery.RotationEvictsNewest | app/store.c:126-132 | what the rotation costs: the appends that follow push out the newest samples from before the crash, first ones first, and keep all older ones |
| Recovery.CrashKeepsOrderIff | app/persist.c:276-301 | recovered samples are in time order if and only if flushed and pending together fit the capacity |
| Recovery.CloseThenLoad | app/persist.c:201-211 | after a clean close a load returns everything the file ring held |
| Recovery.SavedThenLoad | app/persist.c:201-346 | lay out, append any run, close, load: the newest `capacity` samples moved by id |
| Recovery.ReloadUnderLayoutChange | app/persist.c:236-312 | saving with one registry and capacity and loading with another keeps the newest that fit, in order; each current id has its saved value or is absent |
| Recovery.ReloadIdentity | app/persist.c:236-312 | with registry and capacity unchanged the reload is the identity |
| History.UnsyncedCloseKeepsFile | app/persist.c:201-211 | closing a handle that never laid its file out leaves the file untouched |
| History.AppendSimulated | app/main.c:135-137 | one tier sample moves ring and file as it moves the plain lists |
| History.OpenSimulated | app/main.c:184-198 | an open adopts saved samples into an empty tier only, then lays out the file and replays the tier |
| History.CloseSimulated | app/main.c:160-169 | a close leaves a file worth everything appended, and an unowned file untouched |
| History.OtherStorageSimulated | app/persist.c:77-115 | another disk found while the file is closed changes what the next open adopts, and nothing while it is open |
| History.CutSimulated | app/persist.c:314-346 | a crash inside an append or inside an open's replay, after any number of records, perhaps with the last one's index not yet written, leaves a file the plain lists describe |
| History.RunSimulated | app/main.c:160-233 | over every run of opens, failed opens, samples, closes, restarts, changes of storage and crashes, between steps, inside an append or after any number of replayed records of an open, ring and file bytes follow two plain lists |
| History.ReachedSimulated | app/main.c:171-233 | every state that any such run reaches from a first start, over any bytes on the storage, is one the plain lists describe |
| History.MirrorRefines | app/persist.c:314-346 | over every run, whenever a file is attached its ring denotes the same samples as the tier |
| History.OpenRotatesFile | app/persist.c:314-325 | that holds although the heads differ: an open puts the file at slot 0 and leaves the ring where it was |
| History.ProcessHistory | app/main.c:171-203 | whatever went before, over a process life the tier holds the last `capacity` of the saved samples (if the first open found it empty) followed by the process's own |
| History.CleanRestart | app/main.c:160-203 | after any run that leaves the file open, a clean stop and a start with other metrics and capacity keep the newest samples that fit, moved by id; at another interval none |
| History.CleanRestartIdentity | app/main.c:160-203 | with nothing changed the tier after a clean restart is the tier before |
| History.CrashRestart | app/main.c:171-203 | after any run, a crash between two steps: the next tier holds the stale view of what was flushed and the fewer than 60 samples pending, moved by id |
| History.CutAppendRestart | app/persist.c:329-346 | after any run, a crash inside an append, between its record and its index: the next tier holds the stale view of what was flushed and the at most 60 samples pending, moved by id |
| History.CutReplayRestart | app/persist.c:314-346 | a crash after k replayed records of an open: the next tier holds what of the first k had been flushed, moved by id, and nothing of the rest |
| History.CutReplayLoss | app/persist.c:314-346 | what such a crash loses: everything if k is under 60, and fewer than 60 samples if and only if the replay had passed its last flush |
| History.RebuildResetsToFile | app/main.c:207-233 | a rebuild with nothing open resets the tier to what the file holds |
| Buckets.PushExplained | app/store.c:161-186 | one push closes the bucket exactly when its interval has passed and then emits the mean of what was in it, stamped with the push |
| Buckets.CutIsPartition | app/store.c:161-186 | every run splits into consecutive buckets and an open one, each closing at the first sample an interval after its start |
| Buckets.PartitionUnique | app/store.c:161-186 | there is no other such split |
| Buckets.RunEmitsMeans | app/store.c:161-186 | the rows emitted over a run are the means of the closed buckets, and the accumulator holds the open one |
| Buckets.RowsSpaced | app/store.c:173-185 | successive rows of a process lie at least one interval apart |
| Buckets.RunConserves | app/store.c:161-186 | sums and counts of the emitted rows and the accumulator equal those of everything pushed |
| Buckets.MeanWithinBounds | app/store.c:175-178 | a mean is present exactly when its bucket has a reading and lies within any bounds of those readings |
| Sizing.CapacityWithinBounds | app/store.c:49-74 | a chosen capacity lies between the tier's minimum and its unscaled size |
| Sizing.SharesWithinBudget | app/store.c:58-74 | the three scaled shares together fit the memory budget |
| Sizing.MemoryWithinBudget | app/store.c:49-115 | record bytes fit the budget when no minimum binds and never exceed it by more than the minima's bytes |
| Sizing.SlowerSamplingLongerWindowIff | app/store.c:53-74 | for all metric counts and memory sizes, the fine window of a new store is longer than at one second if and only if the interval is at least 7, or at least 2 on a device whose memory makes the tiers scale |
| Sizing.SmallMemoryWindow | app/store.c:58-74 | such a device: 200 metrics and 256 MiB give 673 seconds at an interval of one second and 722 at two |
| Sizing.TierCapacities | app/store.c:49-74 | the sizing loop computes those capacities |
| Sizing.WindowsOfTiers | app/store.c:13-17 | at one sample a second and with memory enough the tiers hold 30 minutes, 12 hours and 30 days, and never less than 5 minutes, 3 hours and 2 days |
| Stores.Tier.constructor | app/store.c:76-86 | a new tier: zeroed arrays, empty ring, no open bucket, no callback |
| Stores.Tier.CopyRow | app/store.c:126-132 | copying a row into the flat array changes that slot's row and no other |
| Stores.Tier.Append | app/store.c:126-132 | in place, the arrays become those of the ring with the sample appended |
| Stores.Tier.SampleAt | app/store.c:227-243 | the index-th sample, oldest first, or failure past the end |
| Stores.Tier.Series | app/store.c:254-279 | the two buffers receive the first samples at or after the time, oldest first, up to the maximum |
| Stores.Tier.AddReadings | app/store.c:166-171 | the present readings of a row enter the open bucket's sums and counts |
| Stores.Tier.BucketMeans | app/store.c:173-178 | the row of means, absent where the bucket had no reading |
| Stores.Tier.Accumulate | app/store.c:161-186 | the coarse half of a push moves bucket and ring as Buckets.Push says |
| Stores.Store.constructor | app/store.c:40-93 | three new tiers of the sized capacities and intervals that share no memory |
| Stores.Store.Push | app/store.c:143-196 | one push moves all three tiers and leaves a row pending for each callback due |
| Stores.Store.TierForWindow | app/store.c:245-252 | the finest tier that needs at most 2000 points, the coarsest if none does |
| Stores.SincePrefix | app/store.c:254-279 | a scan that stops early has found a prefix of all matches |
| Stores.CoarseRunIsBucketRun | app/store.c:143-196 | over any run of pushes a coarse ring receives exactly the emitted bucket means |
| Query.SinceIsSuffix | app/store.c:254-279 | on samples in time order the matches of a request are a suffix of the tier |
| Query.MatchesFitWindow | app/store.c:173-185 | of rows pairwise a gap apart, in any order, n matches span at least n - 1 gaps |
| Query.QueryComplete | app/api.c:256-301 | every stored sample since the start of the window is returned from a tier of at most 4000 slots at any window, and from the coarse tier under 1,200,000 s, also after a crash put it out of order |
| Query.LongQueryLosesNewest | app/api.c:14 | for every longer window, which the code answers from the coarse tier, and every larger capacity there is a run of pushes after which the newest sample is left out |
| Query.RequestCompleteIff | app/api.c:256-301 | a request is answered in full whatever its tier may hold if and only if the tier has at most 4000 slots or the window is under 1,200,000 s |
| Query.SteadyRun | app/store.c:161-186 | pushes every 300 s make one row each from the second on |
| Query.CoarseTierSpaced | app/store.c:173-185 | saved rows that are spaced followed by a run's own rows stay spaced |
| Query.CoarseTierApart | app/store.c:173-185 | the same for saved rows that are apart but out of order |
| Query.SeriesColumns | app/api.c:271-301 | one shared timestamp array is right for every metric, and every column has its length |
| PersistFiles.File.ReadAt | app/persist.c:123-132 | the whole range, or failure if the file ends before it |
| PersistFiles.File.WriteAt | app/persist.c:134-143 | the bytes replace their range of the file |
| PersistFiles.Persist.constructor | app/persist.c:170-193 | a handle takes the tier's layout and does not own the file yet |
| PersistFiles.Persist.WriteHeader | app/persist.c:145-157 | the index goes to disk and the append counter to zero |
| PersistFiles.Persist.Close | app/persist.c:201-211 | a close writes the index only if the handle laid the file out; otherwise the bytes stay |
| PersistFiles.Persist.IdTable | app/persist.c:224-227 | the table loop encodes the registry's ids in order |
| PersistFiles.Persist.Initialise | app/persist.c:219-234 | ids, empty index and size are written |
| PersistFiles.Persist.Append | app/persist.c:329-346 | the record is written at the head's slot and the index on every sixtieth |
| PersistFiles.Persist.Sync | app/persist.c:314-325 | lays the file out and replays the tier's samples oldest first |
| PersistFiles.Persist.MapIds | app/persist.c:262-268 | the column of each saved id in today's registry, or -1 |
| PersistFiles.Persist.Remapped | app/persist.c:291-297 | the inner loop moves a saved row to today's columns |
| PersistFiles.Persist.Replay | app/persist.c:276-301 | the slot loop restores the samples a load finds, and counts them |
| PersistFiles.Persist.Load | app/persist.c:236-312 | a load restores those samples, or none for a foreign, mismatched or short file |
| Application.Line.AdoptSaved | app/main.c:191-194 | saved samples enter a tier only if it is empty |
| Application.Line.Attach | app/main.c:185-197 | open, adopt, sync and callback together are one open of the tier's history |
| Application.Line.Detach | app/main.c:161-167 | one tier's close |
| Application.Line.Deliver | app/main.c:135-137 | a pending row goes to the file and nothing else moves |
| Application.App.constructor | app/main.c:718-755 | a process starts with new empty tiers over whatever the files hold |
| Application.App.ClosePersistence | app/main.c:160-169 | every tier closes and none keeps its handle |
| Application.App.TryOpen | app/main.c:184-202 | all three tiers open, or the ones before the first failure are opened and closed again; the answer says whether to retry |
| Application.App.OpenAt | app/main.c:184-198 | one turn of the loop opens one tier and leaves the others as they are |
| Application.App.TakeUp | app/main.c:214-224 | new tiers, able to run, for another metric set over the files found |
| Application.App.GiveUp | app/main.c:207-222 | the close before a rebuild leaves the files from which new tiers start as the restarted histories do |
| Application.App.StartOver | app/main.c:222-230 | new tiers over the files, then one round of opens; a retry is due if and only if one of them fails |
| Application.App.Rebuild | app/main.c:207-233 | a rebuild is that step of the program: each tier closes, restarts with the new registry over its file or one on another storage, and goes through a round of opens; a retry is due if and only if one of them fails |
| Application.App.Retry | app/main.c:171-203 | nothing while the files are open, a rebuild if the mounts changed, a round of opens otherwise; which timer runs on |
| Application.App.PushStore | app/main.c:238 | the push moves rings and buckets and no file |
| Application.App.RunCallbacks | app/main.c:135-137 | the callbacks a push left bring each tier's pending row to its file |
| Application.App.DeliverAll | app/store.c:190-195 | the deferred callbacks move files and no ring or bucket |
| Application.App.OnSampleTick | app/main.c:235-239 | a tick is that step of the program: one append of the fine history and one step of each coarse history, bucket, ring and file |
| Application.FineTick | app/store.c:143-196 | push and callback together are one step of the fine history |
| Application.CoarseTick | app/store.c:143-196 | push and callback together are one step of a coarse history |
| ProgramRuns.OpensAreRuns | app/main.c:184-202 | for each tier, its part in a round of opens is a run of its history |
| ProgramRuns.RebuildsAreRuns | app/main.c:207-226 | for each tier, its part in a rebuild up to the opens, on the same storage or another, is a run of its history |
| ProgramRuns.RetriedIsRun | app/main.c:171-233 | for each tier, so is its part in a retry: nothing, a round of opens, or a whole rebuild |
| ProgramRuns.ProgramRunsAreHistories | app/main.c:160-247 | every run of the program, of ticks, retries, rebuilds, stops, and new processes over what the disk holds after a stop or after a crash inside a tick, a replay, a round of opens or a stop, is a run of each of its three tiers' histories |
| CoarseHistory.RunIsTierRun | app/store.c:143-196 | every run of a coarse tier, bucket included, is a run of its ring and file |
| CoarseHistory.RunFed | app/store.c:161-186 | over a process life a coarse tier appends exactly what the bucket machine emits for its ticks |
| CoarseHistory.CoarseProcessHistory | app/main.c:135-247 | whatever went before, over any ticks, opens, failures and closes a coarse tier holds the last `capacity` of the saved rows (if adopted) followed by the means of its closed buckets, and an open file denotes the same |
| CoarseHistory.ProcessKeepsApart | app/store.c:173-185 | over one process life whose saved rows are an interval apart and older than its ticks, all rows stay an interval apart |
| CoarseHistory.CrashKeepsApart | app/persist.c:276-301 | a crash puts rows out of order but not closer together |
| CoarseHistory.CleanStopLosesOpenBucket | app/main.c:160-203 | a clean stop keeps every row and loses the samples of the open bucket: the rows are those of a process never given them |
| CoarseApart.RowsStayApart | app/main.c:160-247 | over every run of process lives on one storage, crashes between steps and inside ticks and opens included, with a clock that never runs back, the rows of a coarse tier stay an interval apart |
| CoarseApart.RequestsStayComplete | app/api.c:256-301 | so over all such runs a request to the coarse tier under 1,200,000 s is answered in full |
| Buckets.OpenBucketLeavesNoTrace | app/store.c:161-186 | without the samples of the open bucket the same rows are emitted |
| Debounce.BreachSinceIsTrailStart | app/alerts.c:250-276 | `breach_since` is the start of the maximal trailing run of breaches, 0 if there is none |
| Debounce.FiringIff | app/alerts.c:262-285 | a rule fires if and only if some run of breaches lasted its duration and no good reading came since |
| Debounce.OnlyReadingsClear | app/alerts.c:249-259 | absent readings, a disabled rule and a missing metric break a run and never clear a firing rule |
| Debounce.NoteTellsChange | app/alerts.c:262-285 | a notification goes out exactly when firing changes |
| Debounce.NotesAlternate | app/alerts.c:262-285 | fire and clear alternate and their parity is the firing state, however the condition is edited |
| RuleTable.FindRule | app/alerts.c:45-51 | the first rule with the id, negative when there is none |
| RuleTable.ConstructionSound | app/alerts.c:171-227 | construction gives unique ids, at most 64 rules, the user's rules unchanged in order, and no built-in the device does not call for |
| RuleTable.DefaultPresentIff | app/alerts.c:210-216 | with room, a default rule is in the table if and only if its metric exists and no saved rule has its id but the default itself |
| RuleTable.ConstructedIff | app/alerts.c:171-219 | whatever was saved and however full the table gets: it holds, of all rules offered, the first of each id, the first 64 of those, and of these the user's and the expected ones |
| RuleTable.SavedRuleOwnsItsId | app/alerts.c:193-216 | with room, a saved rule is there as it was saved, unless it is a stale built-in, and no rule of its id is added |
| RuleTable.SpaceRulePresentIff | app/alerts.c:184-208 | with room, the space rule of a filesystem is in the table if and only if its cut id is the uncut one for some filesystem and it was first: a saved rule of the id is that very rule, or none was saved and no earlier filesystem has the same cut id |
| RuleTable.UsersRuleStandsIn | app/alerts.c:193 | a user's rule saved under a space rule's id: the id is in the table and nothing watches the filesystem |
| RuleTable.CutIdShadows | app/alerts.c:193-207 | two filesystems, the first with the second's name of 34 letters and one more: the first has a rule and nothing watches the second |
| RuleTable.PrunedKeeps | app/alerts.c:158-169 | pruning keeps exactly the user rules and the expected built-ins, users in order |
| RuleTable.PruningSpares | app/alerts.c:158-169 | an expected id that some rule carries survives the pruning |
| AlertRuns.AppliedSound | app/alerts.c:333-401 | no change request that is answered breaks unique ids or the limit of 64 |
| AlertRuns.AppliedKeepsRule | app/alerts.c:344-393 | a rule a request does not delete keeps its runtime state and origin, a built-in also its metric |
| AlertRuns.BuiltinsStay | app/alerts.c:344-354 | no request removes a built-in |
| AlertRuns.AppliedToOthers | app/alerts.c:333-401 | a request that names another id leaves a rule exactly as it was |
| AlertRuns.OneNotePerRule | app/alerts.c:247-286 | one evaluation notifies of a rule at most once, by that rule's own note |
| AlertRuns.RunSound | app/alerts.c:73-401 | unique ids, ids that fit and at most 64 rules over every run |
| AlertRuns.HeardAlternates | app/alerts.c:262-285 | over every run that does not delete a rule, fire and clear strictly alternate and their parity is its firing state |
| AlertRuns.RebuildBreaksIff | app/main.c:207-233 | across a rebuild they alternate if and only if the rule was not firing then or is not heard of again: else a second fire follows the first |
| AlertRuns.RefiresAfterRebuild | app/main.c:207-233 | every rule that breaches long enough from a start on fires, and fires again after a rebuild with no clear in between |
| AlertRuns.CpuHighRefires | app/alerts.c:30 | so does the default rule `cpu_high` at 95 % |
| AlertRuns.FaultsIff | app/alerts.c:355-367 | a save goes on with no rule in hand exactly when its id exceeds 47 characters, its stored form is new and there is room |
| AlertRuns.UneditedRule | app/alerts.c:244-287 | a rule nobody names goes through evaluations and edits of other rules as the debounce machine goes through its observations |
| AlertRuns.TableFiresIff | app/alerts.c:171-287 | from a start on, an unedited rule is firing if and only if its own observations call for it |
| AlertEffects.BlindRule | app/alerts.c:250-259 | an evaluation of a rule that is off, whose metric is not registered or has no reading leaves everything of it as it was except `breach_since`, which becomes 0, and says nothing of it |
| AlertEffects.SeeingRule | app/alerts.c:260-284 | an evaluation with a reading: what the rule is after it and what is heard of it, from its threshold, direction and duration, the reading and the clock |
| AlertEffects.OffIsSilent | app/alerts.c:250-253 | over every run of evaluations and edits in which a rule stays off its listener hears nothing and its firing state never changes |
| AlertEffects.SteadyBreachHeard | app/alerts.c:263-284 | however many samples past the threshold follow one another, for either direction, a rule that is on is heard once, and if and only if it was not firing and the last one comes its duration after the breach began |
| AlertEffects.SteadyCalm | app/alerts.c:263-275 | of samples not past it nothing is heard of a rule that is not firing |
| AlertEffects.SaveTakesEffect | app/alerts.c:355-393 | after a save under an id of at most 47 characters the rule of the id has every field given and keeps every other; a built-in keeps its metric; only a full table refuses |
| AlertEffects.LoweredThresholdFires | app/alerts.c:379 | readings between a saved, lower threshold and the old one are not heard before the save, and after it, lasting the duration, once |
| AlertEffects.DefaultsInForce | app/alerts.c:29-33 | with room, the three defaults are on with their thresholds and durations where the device has the metric and nothing was saved under their ids |
| AlertEffects.SpaceRuleInForce | app/alerts.c:195-206 | likewise a filesystem of at most 34 letters is watched at 90 percent for 300 s if nothing and nobody earlier has its rule's id |
| AlertEffects.WatchedIsHeard | app/alerts.c:263-284 | such a rule fires after its duration above its threshold and not before |
| AlertEffects.LoadedAsSaved | app/alerts.c:85-110 | with room, a user's saved rule, the first of its id, is in the table with every field as it was saved, and not firing |
| Alerts.Alerts.constructor | app/alerts.c:171-227 | load, space rules, defaults and pruning in place build the constructed table |
| Alerts.Alerts.FindRule | app/alerts.c:45-51 | the search loop returns the first rule with the id |
| Alerts.Alerts.AddRule | app/alerts.c:73-78 | a rule is added unless the table is full or has its id |
| Alerts.Alerts.LoadRules | app/alerts.c:80-110 | the load loop, which stops at 64 rules, gives the saved rules that have a metric |
| Alerts.Alerts.AddStorageRules | app/alerts.c:178-208 | one pass adds the space rules and collects the expected ids |
| Alerts.Alerts.AddSpaceRule | app/alerts.c:193-205 | a filesystem without a rule of its full id gets one, if the table has room |
| Alerts.Alerts.AddBuiltins | app/alerts.c:210-216 | missing defaults whose metric exists are added |
| Alerts.Alerts.PruneStaleBuiltins | app/alerts.c:158-169 | compaction in place leaves the kept rules in order |
| Alerts.Alerts.Evaluate | app/alerts.c:244-287 | every rule takes one debounce step on its own reading, and exactly the due notifications are sent in table order |
| Alerts.Alerts.EvaluateRule | app/alerts.c:248-285 | the branches of one rule's evaluation are one debounce step and touch no other rule |
| Alerts.Alerts.Delete | app/alerts.c:344-354 | a user rule is removed and the gap closed; a built-in or unknown id changes nothing |
| Alerts.Alerts.Save | app/alerts.c:355-393 | an existing rule is edited, a new one added first, and a full table refuses |
| Alerts.Alerts.Apply | app/alerts.c:333-401 | which requests change the table and how |
| Alerts.Alerts.ApplyForm | app/alerts.c:329-401 | a form body is looked up field by field and applied as the change request it stands for |
| Alerts.FieldsOfForm | app/alerts.c:369-374 | each field of a written form, in any encoding and order, comes to its own place in the request |
| Alerts.SaveFormSaves | app/alerts.c:355-382 | a save form sets the threshold, duration, direction and switch that stand in it, of the rule it names |
| Alerts.DeleteFormDeletes | app/alerts.c:333-354 | a delete request in any form encoding, its fields anywhere in the form, deletes exactly the user rule it names |
| InfluxHandoff.OneOwner | app/influx.c:191-277 | in every interleaving each payload has exactly one owner, is freed at most once, and QUIT is never freed |
| InfluxHandoff.QueueHoldsNewest | app/influx.c:259-277 | at most one payload is queued, the newest, with at most QUIT behind it |
| InfluxHandoff.WrittenInOrder | app/influx.c:191-209 | payloads are written in build order, at most once, never after being freed |
| InfluxHandoff.WrittenIff | app/influx.c:199-206 | in every interleaving, once the worker is past a payload it is among those written if and only if the settings it copied before it were on and had an address |
| InfluxHandoff.CopiedInForce | app/influx.c:199-202 | those settings are the ones in force when it copies them |
| InfluxHandoff.OnlyAllowedWritten | app/influx.c:204-205 | nothing is written that the worker did not copy such settings for |
| InfluxHandoff.OneIsWritten | app/influx.c:191-277 | a run in which a payload is built, fetched, written and freed |
| InfluxHandoff.TickPassesIff | app/influx.c:259-266 | a tick goes past its checks if and only if the writer is on, has an address, is not being stopped, and the last one that did is an interval ago or was never |
| InfluxHandoff.TicksSpaced | app/influx.c:263-266 | in every interleaving two such ticks are an interval apart while the writer stays on |
| InfluxHandoff.SwitchedOnWritesAtOnce | app/influx.c:255-256 | switching the writer on lets the next tick through |
| InfluxHandoff.ShutdownFreesAll | app/influx.c:223-239 | after the join the queue is empty; at the end every payload built was freed exactly once |
| InfluxHandoff.JoinReturns | app/influx.c:227-229 | while the join waits, the worker has a step that brings its end nearer |
| InfluxHandoff.DroppedWhileIdleIff | app/influx.c:268-272 | in every interleaving a tick drops only the newest payload, and drops one with no write under way if and only if the worker could have fetched it instead |
| InfluxHandoff.DroppedWhileIdle | app/influx.c:268-272 | a run in which that happens although nothing was ever written |
| InfluxHandoff.RunsKeepInvariant | app/influx.c:191-277 | the inductive invariant behind these |
| LineProtocol.AppendEscapedTag | app/influx.c:46-52 | the loop appends the escaped tag text, nothing for a missing string |
| LineProtocol.AppendEscapedMeasurement | app/influx.c:54-60 | the same for a measurement, where '=' stays plain |
| LineProtocol.OneEscaped | app/influx.c:46-60 | which characters get a backslash, in tags and in a measurement, and no other does |
| LineProtocol.EscapedJoins | app/influx.c:46-60 | character by character |
| LineProtocol.EscapedRead | app/influx.c:46-60 | a reader that honours backslashes gets an escaped text back and stops at the delimiter behind it, if and only if the text has no newline |
| LineProtocol.LineReadsBack | app/influx.c:63-103 | a printed line reads back as measurement, tags, fields in order and timestamp if and only if it holds no inner newline |
| LineProtocol.DecimalRead | app/influx.c:101 | decimal timestamps read back as written |
| LineProtocol.AppendFields | app/influx.c:81-93 | the field loop appends the selected present readings in registry order |
| LineProtocol.BuildPayload | app/influx.c:63-103 | the built line is the print of the point, and there is none without a sample or without a field |
| LineProtocol.PayloadReadsBack | app/influx.c:63-103 | what a server reads from a payload, with the "unknown" defaults, and exactly when |
| LineProtocol.PayloadSays | app/influx.c:63-103 | what that point is: the measurement, serial and model or "unknown", exactly the present readings of the selected metrics, each under its id in registry order, and the sample's time |
| LineProtocol.NoPayloadIff | app/influx.c:96-99 | a sample has no fields if and only if none of its readings is both there and selected |
| Discovery.InterfaceEssentialIff | app/mqtt.c:31-64 | the rates of an interface are essential if and only if its name has no underscore, which is how a VLAN's dot arrives |
| Discovery.DashboardIff | app/mqtt.c:42-71 | at the broker, after a withdrawing run without shared topics and with `discovery_all` off: which transmitted metrics are retained, family by family and id by id, and nothing of the others |
| Discovery.EverythingIff | app/mqtt.c:146-163 | with it on, a metric is retained if and only if it is transmitted |
| Discovery.LastMetricDecides | app/mqtt.c:146-200 | whatever the ids, the last metric of a topic decides what a withdrawing run leaves there |
| Discovery.WithdrawingIsExactIff | app/mqtt.c:135-205 | a withdrawing run leaves exactly the wanted entities among the registered metrics if and only if no wanted metric shares its topic with another |
| Discovery.AddingIsUnion | app/mqtt.c:135-205 | a run that does not withdraw adds the wanted entities to what was there |
| Discovery.SharedTopicIff | app/mqtt.c:153-161 | two metrics share a topic if and only if their ids differ in nothing but characters that are neither letters nor digits |
| Discovery.AreasCollideIff | app/collect.c:376-383 | a metric of a storage area and one of the area with `_` and the first metric's last part behind it share a topic with distinct ids, cut to 63 characters, if and only if the area has at most 59 letters and area and part together at least 59 |
| Discovery.EssentialAreaWithdrawn | app/mqtt.c:135-205 | with `discovery_all` off, an area of 54 letters and one with "_usage" behind that name, the essential `usage` of the first is wanted, and a withdrawing run does not leave exactly the wanted entities |
| Discovery.OtherTopicsKept | app/mqtt.c:146-200 | no other topic is touched |
| MqttRuns.RunsKeepInvariant | app/mqtt.c:209-355 | the inductive invariant of connects, losses, settings changes and changes of the metrics |
| MqttRuns.RunsStayBound | app/mqtt.c:209-355 | over every run a client belongs to the broker of its settings, and a connected one is online there |
| MqttRuns.WantedAreRetained | app/mqtt.c:209-355 | over every run, while connected with discovery on, every entity wanted among the metrics of the last discovery run is retained with the current prefix |
| MqttRuns.EntitySays | app/mqtt.c:166-196 | what such an entity says: its metric's label, id and unit, the topic of the readings, a topic under which the broker holds "online", and an id made of serial and metric that is also in its own topic |
| MqttRuns.UnchangedIsSteady | app/mqtt.c:209-355 | in a run that never changes the metrics, those are the metrics there are, and all runs of discovery went through them |
| MqttRuns.ExactUnlessPeak | app/mqtt.c:209-355 | and if the runs since the last withdrawing one went through the same metrics, the retained set is exactly the wanted one of those unless more was published since that withdrawal than is wanted now |
| MqttRuns.GrowingStaysExact | app/mqtt.c:209-355 | that equality survives every reconnect if the settings only grew |
| MqttRuns.OutageLeavesExtras | app/mqtt.c:332-337 | turning `discovery_all` off during an outage leaves every extra entity |
| MqttRuns.UnofferedStay | app/mqtt.c:146-200 | over every run, no broker changes what it retains under a metric's topic while no discovery run goes through a metric of that topic |
| MqttRuns.ChangesAreSilent | app/main.c:207-233 | a rebuild or an edit of the transmitted metrics reaches no broker and ends no connection |
| MqttRuns.GoneMetricStays | app/main.c:207-233 | after any run, the entity of a metric that leaves the registry stays retained through all connects, withdrawals and settings until discovery goes through a metric of its topic again |
| MqttRuns.NewMetricWaits | app/main.c:207-233 | after any run, a metric whose topic no discovery run went through and no broker retained is missing everywhere after it is registered, and the next connect with discovery on brings it |
| MqttRuns.OnlineStaysIff | app/mqtt.c:246-266 | whatever the metrics, a settings change that ends a connection leaves the old status "online" if and only if the prefix changed |
| MqttRuns.LossIsOffline | app/mqtt.c:314-320 | over every run, a connection that breaks leaves the status "offline" at the broker |
| MqttRuns.StaysConnectedIff | app/mqtt.c:332-355 | over every run, a settings change keeps a connection if and only if it stays enabled and changes neither broker, account nor prefix |
| Mqtt.Mqtt.Publish | app/mqtt.c:115-131 | a retained message replaces its topic's, an empty one removes it, and without a client nothing is sent |
| Mqtt.Mqtt.PublishDiscovery | app/mqtt.c:135-205 | the loop over the registry is one discovery run on the connected broker |
| Mqtt.Mqtt.PublishOne | app/mqtt.c:146-200 | one turn of that loop retains the metric's entity if it is wanted, withdraws it if it is not and the run withdraws, and touches no other topic |
| Mqtt.Mqtt.OnConnected | app/mqtt.c:209-222 | online, then discovery if it is on, withdrawing only the first time |
| Mqtt.Mqtt.OnConnectionLost | app/mqtt.c:224-228 | the broker publishes the will; what was sent is remembered |
| Mqtt.Mqtt.Disconnect | app/mqtt.c:246-266 | offline if connected, and the next connection starts afresh |
| Mqtt.Mqtt.ConnectNow | app/mqtt.c:274-287 | a client for the configured broker, or none |
| Mqtt.Mqtt.Apply | app/mqtt.c:332-355 | which settings disconnect, reconnect or rediscover |
| Mqtt.Mqtt.Change | app/main.c:207-233 | a rebuilt registry or an edited selection changes what the next discovery run goes through, and nothing on a broker |
| Forms.UrlDecode | app/api.c:219-235 | the loop decodes plus signs and complete percent escapes and copies the rest |
| Forms.EscapeIsByte | app/api.c:219-235 | a complete escape is one byte, whichever case its digits have |
| Forms.PlainIsItself | app/api.c:219-235 | a plus is a space and any other character but the percent sign is itself |
| Forms.ApiQueryParam | app/api.c:237-254 | the cursor loop finds the first segment of the name after an optional path |
| Forms.DecodeUndoesEncode | app/api.c:219-235 | decoding undoes every form encoding of a value, and no encoding holds a separator |
| Forms.EveryValueEncodes | app/api.c:219-235 | every byte string has an encoding |
| Forms.LookupInvertsEncoding | app/api.c:237-254 | a lookup in a written form gives the first value of the name, and nothing exactly when no field has the name |
| Forms.ValueComesBackIff | app/api.c:219-254 | a value comes back unchanged if and only if it has no NUL |
| CpuAccounting.CpuSampler.SampleCpu | app/collect.c:633-699 | one pass over the lines updates the carried counters and reports usage, parts, cores, switches and running processes |
| CpuAccounting.UsageInRange | app/collect.c:677-681 | for all 64-bit counters usage is absent or in 0 to 100 |
| CpuAccounting.SampleKeeps | app/collect.c:671-698 | every sample keeps totals and counters consistent and reports only percentages as usage |
| CpuAccounting.LineDecides | app/collect.c:638-698 | wherever a line stands in a sample, if no other is about the same it decides what is reported of it and carried on: usage and parts, a core's usage, the switches' rate, the running processes |
| CpuAccounting.FirstSampleSilent | app/collect.c:640-692 | the first sample reports no usage, no parts and no rate |
| CpuAccounting.PartsAddUp | app/collect.c:671-692 | with no counter fallen the parts and the idle share sum to 100, and usage is user, system, irq and steal |
| CpuAccounting.NextSampleAddsUp | app/collect.c:633-699 | so after any run of samples |
| CpuAccounting.SharesInRangeIff | app/collect.c:685-692 | for all counters, fallen or not: each of the five shares is in 0 to 100 if and only if the wrapped growth it is made of is at most the wrapped growth of the total |
| CpuAccounting.FallenIdleReported | app/collect.c:685-692 | idle falling by 40 while iowait grows by 50 is reported as an iowait of 500 % |
| CpuAccounting.FallenIowaitReported | app/collect.c:685-692 | iowait falling by 1 while idle grows by 3 is reported out of range |
| CpuAccounting.RatesTelescope | app/collect.c:153-157 | rates times their gaps add up to what the counter gained, resets apart |

## Left out

- Write failures and writes that a crash tears in the middle. Crashes between two writes are modelled: `Recovery.TornTableLoads` and `Recovery.EmptyIndexLoadsNothing` give the next load after those between the writes of one layout. `Recovery.LongTableLoads` does for a table that runs into the records. In the histories such a crash is a change to another storage, of unknown contents.
- Float rounding: readings and means are real numbers, and a float on disk is opaque bytes that read back as the reading they came from. So what numbers the program makes of letters written over a record's readings is not modelled, only their time and which records those are.
- The memory budget's product of a double with the RAM size is taken as its exact whole part.
- 32-bit `gsize` and `off_t` overflow of file offsets; the slot arithmetic of a load does wrap at 32 bits as in the code.
- Clock steps backwards, except in the bucket partition and its conservation, which hold for any clock. Timestamps are positive, since 0 marks an idle accumulator and loads skip it.
- Metric ids of 64 or more characters in the history (`Registry` shows what they break). Of change requests, those alone that leave the program with no rule in hand (`AlertRuns.FaultsIff` says which): what the program does then is undefined.
- `find_storage` and mount probing: whether storage is there, which files it holds and whether the mounts changed are inputs. Collector discovery: a rebuild takes the new registry as given, and the opens at its end find the mounts unchanged. A rebuild makes a new `App` object where the program reassigns its globals.
- A disk that comes back later with its old file counts as one with unknown contents, so the theorems about one storage begin at its first open.
- The tier's callback runs after the push under no lock: a push returns the rows due and `DeliverAll` hands them over. Locks and the web server's concurrent readers are not part of this model.
- `Application.Line` stands for the i-th entries of the tier, handle and file-name arrays.
- `persist_load` of a header with 0 or more than 100000 metrics returns nothing, as in the code; other limits on the allocation are not modelled.
- Reading the rules file and saving it: a saved rule arrives as its fields. How the text of a threshold or duration is read as a number (`g_ascii_strtod`, `g_ascii_strtoull`) is a parameter. Declaring and sending device events follow the notifications and are left out.
- Editing a rule in the middle of a breach: the code keeps `breach_since` across edits, so the debounce theorem is about unedited rules; alternation holds under edits.
- A payload's URL, the HTTP write and its state text: a write is a step. Configuration strings of the Influx client are reduced to what the worker and the tick look at.
- `%.7g` number formatting: a number is any text without delimiters.
- MQTT quality of service, messages lost in flight and callbacks racing with the main loop: callbacks are steps between those of the main thread. Messages on the state topic and the alert topics are not modelled, nor an entity's device class and suggested unit, which follow from its unit and id, or the unit's spelling for Home Assistant. One broker reached under two addresses counts as two.
- JSON, Prometheus, HTTP, SSE, settings, selection files, processes table and the parsing of `/proc` and `/sys`: input and output around the modelled parts.
