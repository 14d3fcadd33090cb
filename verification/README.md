# PCP: barrier clients, archive converter, help compiler, event packing

Dafny models of five pieces of Performance Co-Pilot that hold real algorithms, with proofs of what
they do on every input, in every interleaving, or over every run. `dafny verify dfyconfig.toml`
checks everything.

**Barrier and its clients.** `Barrier` is the reusable barrier of `pthread_barrier.h` as a state
machine with one step per source line; a schedule is a sequence of choices, so "for all schedules"
means "in every interleaving". `NamespaceReload`, `EarlyExits` and `ProfiledFetch` run the threads of
`multithread3.c`, `multithread1.c` and `multithread7.c` on top of it (or of a mutex). The condition
wait is not in a loop, so a wakeup without a signal is a separate choice: the guarantees assume there
is none, and `SpuriousWakeupsMatter` shows that this is needed exactly when there is more than one
thread.

**Archive converter.** `Merge` is the order in which `nextrec` picks records, `ArchiveOutput` the
three output files with their stream positions, `Converter` the program itself as a class over its
global variables, proved to follow both. `Framing` reads and writes framed records, also across
volumes, and filters mark records; `PduRewrite` rewrites a record in place; `DataRecords` joins the
two, so that `Converter.ConvertArchive` says what can be read from the volume it has written.
`LoadMeta` loads a metadata file into hash chains and `MetaFormat` relates that to the file layout.

**Help compiler.** `HelpAssembler` says which entries the line loop hands on and compares them with a
simple splitter; `HelpBuffer` is the loop in its character buffer. `HelpIndex` writes the page file and
the index; `HelpLookup` sorts it, searches it and enumerates it, and `HelpLookup.HelpText` goes the whole
way from the lines of a help source to the texts that are found.

**Event packing.** `EventLayout` is the packed layout and its decoder, `EventBuffer` the growing buffer,
`EventRuns` what becomes of the records over whole runs of packing calls.

**Jenkins hash and instance lists.** `Jenkins`, on the 32-bit arithmetic of `WordOps`, and `InstLists`.
`Basics` holds what the modules share.

Where a hoped-for property does not hold of the code, the code is modelled as it is, and the exact
condition is proved:

- Line 312 of `pmlogconv.c` puts the metadata stream at the data offset. The streams stay at their
  ends exactly when the two files are equally long at every index entry (`AtEndIffLevel`); with the
  metadata offset restored they always do (`MeantIsSound`). The data volume, and the times and data
  offsets of the index, are right either way (`WrittenAgreesElsewhere`).
- `__pmLogChkLabel` in `qa/pmlogconv/libpcp.c` returns the version, not zero, for a volume it sees for
  the first time, and `_pmLogGet` takes that as the end of the archive. Volumes read as one archive
  exactly when nothing lies behind such a volume (`ArchiveIsConcatenation`).
- `rewrite_pdu` refines decode, translate, encode exactly when no translated code leaves the range of
  int (`RewriteRefines`).
- The duplicate check of `newentry` looks at the latest key only, and at none while there is one key.
  The kept keys are distinct exactly when every repetition is of that form (`DistinctIffCaught`).
- A truncated help entry takes the entry behind it along. Assembler and splitter agree exactly when
  truncation only removes surplus newlines in front of a null entry (`SplitterIffIntact`).
- The line buffer of newhelp is one cell short for a full-length line without a newline that meets an
  entry of exactly MAXENTRY characters. The cell behind the buffer is written exactly when a file has
  such a line on its way (`FileBeyondIffSpills`, `Assemble`); `SpillingFile` is one.
- `check_buf` does not refresh `eap` and `erp`. The records of a run come back exactly when no realloc
  on the way moves the buffer (`EventRuns.Pack`), and if every realloc does, exactly when they fit
  without one (`AlwaysMoving`); `LosingRun` loses a parameter.
- `pmDelProfile` with a list of instances takes a domain not touched before for empty. It removes the
  list and nothing else exactly when the domain was touched before (`RemovesTheListIffTouched`).
- `cmp_list` implies a permutation exactly when its first list has no repetitions
  (`ComparisonSufficesIffDistinct`).

The comment at `pmlogconv.c` 259-263 contradicts the one at 78-83; the code writes the instance domain
first on equal timestamps, and so does the model.

## Model

| member | source | states |
|---|---|---|
| Barrier.InitInv | qa/src/pthread_barrier.h:40-60 | a barrier initialised for n > 0 threads satisfies the invariant |
| Barrier.StepInv | qa/src/pthread_barrier.h:69-86 | every step of every thread inside or outside the call keeps the invariant on mutex owner, count, sleepers, results and winners |
| Barrier.RunInv | qa/src/pthread_barrier.h:69-86 | so does every schedule without spurious wakeups |
| Barrier.DoFrame | qa/src/pthread_barrier.h:69-86 | a step changes only its own thread's results, by one when it leaves the call |
| Barrier.BarrierSafety | qa/src/pthread_barrier.h:69-86 | in every interleaving nobody returns from its k-th wait before all have entered theirs, and rounds never differ by more than one |
| Barrier.FreeMutex | qa/src/pthread_barrier.h:40-86 | whenever the mutex is free: count below n, arrivals equal rounds times n plus count, exactly count threads asleep, and not all of them |
| Barrier.OneWinnerPerRound | qa/src/pthread_barrier.h:73-85 | in every completed round exactly one thread is given 1 and every other one that is back got 0 |
| Barrier.NextToOutside | qa/src/pthread_barrier.h:69-86 | beside a thread that is outside, any other has as many results, or one less and is on its way out |
| Barrier.FinishBounded | qa/src/pthread_barrier.h:69-86 | finishing the calls begun takes a bounded number of steps under any scheduling |
| Barrier.StuckShape | qa/src/pthread_barrier.h:69-86 | when nobody inside can move, only sleepers are inside, the mutex is free and somebody has not called |
| Barrier.EveryoneReturns | qa/src/pthread_barrier.h:69-86 | if all threads have begun k calls, every maximal way of finishing ends with all outside and k results each |
| Barrier.SpuriousCounterexample | qa/src/pthread_barrier.h:80-85 | with a spurious wakeup a thread returns before the others have called |
| Barrier.SpuriousWakeupsMatter | qa/src/pthread_barrier.h:80-85 | the guarantee survives arbitrary spurious wakeups if and only if there is one thread |
| NamespaceReload.WaitsCounts | qa/src/multithread3.c:63-167 | the stage of a thread is the number of barrier calls in front of its position |
| NamespaceReload.StepKeepsOrder | qa/src/multithread3.c:63-167 | every step of either thread keeps both at the same stage of the script |
| NamespaceReload.Exclusion | qa/src/multithread3.c:63-167 | a lookup never overlaps a load, unload or rewrite, and finds the namespace meant for its round |
| NamespaceReload.LookupsSeeTheirNamespace | qa/src/multithread3.c:63-167 | at every point of every interleaving the lookups done so far saw exactly what their rounds are meant to see |
| NamespaceReload.RunsAreBounded | qa/src/multithread3.c:63-167 | every schedule is bounded by the work that was left |
| NamespaceReload.StuckMeansDone | qa/src/multithread3.c:63-167 | when neither thread can step both have reached their exit |
| NamespaceReload.CompleteRuns | qa/src/multithread3.c:63-167 | every complete run reports loaded, loaded, unloaded, reloaded, reloaded with EXTRA, unchanged |
| NamespaceReload.EditInPlace | qa/src/multithread3.c:136-146 | the in-place loop edits the text buffer as specified |
| NamespaceReload.EditedAt | qa/src/multithread3.c:136-146 | the edit replaces six characters at the first u and nothing else |
| NamespaceReload.EditDefinesExtra | qa/src/multithread3.c:136-146 | it turns the undef line of the test's text into a define and keeps the rest |
| EarlyExits.OwnStep | qa/src/multithread1.c:37-129 | a thread that leaves does so for the reason the shared variables give, and otherwise has passed one test more |
| EarlyExits.StoreDisturbsNothing | qa/src/multithread1.c:37-129 | no store changes the outcome of a test another thread has already made |
| EarlyExits.SameExit | qa/src/multithread1.c:30-175 | in every interleaving and for every outcome of the library calls, two threads that have left did so for the same reason |
| EarlyExits.NobodyStranded | qa/src/multithread1.c:30-175 | every run is bounded and ends with both threads gone, never with one waiting at a barrier |
| EarlyExits.StuckMeansGone | qa/src/multithread1.c:30-175 | when no thread can step both have left, for one reason |
| EarlyExits.RunRemembers | qa/src/multithread1.c:30-175 | after every run each shared variable holds what the last call of its kind has stored, or its initial value |
| EarlyExits.ExitIsCalledFor | qa/src/multithread1.c:30-175 | every complete run ends with both threads gone for one reason, and it is the first result missing: for each of the six exits, if and only if the calls made have left the shared variables so |
| EarlyExits.RunCounts | qa/src/multithread1.c:30-175 | where calls succeed, each is made once by every thread that gets past it |
| EarlyExits.SuccessGetsThrough | qa/src/multithread1.c:30-175 | if every context is usable and every call stores something, both threads reach pmStore, each having made all five calls once |
| ProfiledFetch.AddSelects | src/libpcp/src/profile.c:194-271 | for every profile and list: afterwards the listed instances are selected, and with them those selected before if the domain was touched before; other domains are unchanged |
| ProfiledFetch.DelSelects | src/libpcp/src/profile.c:273-352 | for every profile and list: afterwards the listed instances are not selected, nor any other of a domain not touched before; other domains are unchanged |
| ProfiledFetch.RemovesTheListIffTouched | src/libpcp/src/profile.c:296-338 | a list and nothing else is removed if and only if the domain was touched before |
| ProfiledFetch.ProfileSteps | src/libpcp/src/profile.c:194-352 | what the four profile changes of the threads leave in a profile that touches one domain at most |
| ProfiledFetch.FetchSeesOwnProfile | qa/src/multithread7.c:112-201 | a fetch about to run finds the profile its own thread installed, or the default |
| ProfiledFetch.StepInv | qa/src/multithread7.c:84-201 | every step keeps that so, with the mutex, or without it unless two hosts are given |
| ProfiledFetch.FetchesAreIsolated | qa/src/multithread7.c:84-201 | in every interleaving and for one, two or three hosts every fetch ran under its own thread's profile |
| ProfiledFetch.UnlockedCounterexample | qa/src/multithread7.c:112-201 | without the mutex and with two hosts a fetch can see another thread's profile |
| ProfiledFetch.LockingNeededForTwoHosts | qa/src/multithread7.c:84-275 | all runs are isolated if and only if the mutex is used or the number of hosts is not two |
| ProfiledFetch.OwnerFrees | qa/src/multithread7.c:112-201 | going on alone, the thread that holds the mutex gives it back at the end of its loop body |
| ProfiledFetch.NobodyIsKeptOut | qa/src/multithread7.c:84-201 | at every point of every run a thread that cannot go on can once the holder of the mutex has gone on alone |
| WordOps.ModularArithmetic | qa/src/keycache2.c:327-338 | addition and subtraction of words are modulo 2 to the 32 |
| WordOps.BitwiseOperators | qa/src/keycache2.c:327-338 | exclusive or sets a bit if and only if exactly one operand has it; the shifts move every bit by their distance and bring in zeros |
| WordOps.BitsDetermine | qa/src/keycache2.c:327-338 | a word is determined by its bits |
| WordOps.RightDivides | qa/src/keycache2.c:327-338 | a right shift divides by a power of two and drops the remainder |
| Jenkins.MixInverse | qa/src/keycache2.c:327-338 | mix has a two-sided inverse on 96-bit states |
| Jenkins.MixLines | qa/src/keycache2.c:327-338 | the nine lines of the macro, assignment by assignment, compute the mix |
| Jenkins.MixedState | qa/src/keycache2.c:327-338 | a state and its mixed state; any other value of one of the nine shift distances gives a different one |
| Jenkins.FallThrough | qa/src/keycache2.c:392-408 | the switch adds the little-endian tail words and the length |
| Jenkins.HashWith | qa/src/keycache2.c:368-412 | for any mixer the loop and the switch compute the c word of the final state |
| Jenkins.Hash | qa/src/keycache2.c:368-412 | the same with the mix of the source |
| Jenkins.QuadFills | qa/src/keycache2.c:379-388 | four key bytes fill a word from its low end |
| Jenkins.BlocksInTurn | qa/src/keycache2.c:377-389 | whole blocks are absorbed one after the other, and what is left are the bytes behind them |
| Jenkins.ShortKeyAdded | qa/src/keycache2.c:372-411 | which bytes of a short key are added where, on which start values, with the length, and that it is mixed once |
| Jenkins.LongerKeyAdded | qa/src/keycache2.c:372-411 | the same for keys of 12 to 23 bytes, mixed twice, with the length of the whole key |
| Jenkins.HashedKey | qa/src/keycache2.c:368-412 | the hash of a key of eight bytes |
| Jenkins.QuadInjective | qa/src/keycache2.c:379-388 | four characters are determined by the word they add up to, even when sign-extended |
| Jenkins.OneBlockNeverCollides | qa/src/keycache2.c:368-412 | keys of equal length that agree outside one 12-byte block reach the same final state only if equal |
| Jenkins.TailNeverCollides | qa/src/keycache2.c:368-412 | the same for keys that agree on all whole blocks |
| Jenkins.ShortKeysNeverCollide | qa/src/keycache2.c:368-412 | keys of at most 11 bytes, of any lengths, reach the same final state only if equal |
| Jenkins.FinalStateTellsKeysApart | qa/src/keycache2.c:327-412 | the three results together for the mix of the source |
| Framing.LogFile.Get | qa/pmlogconv/logio.c:30-167 | reading one record, with volume switching, matches its specification in result, volume and position |
| Framing.GetsFramed | qa/pmlogconv/logio.c:30-167 | a framed record at the position is returned as it is and the position moves behind it |
| Framing.OnlyFramed | qa/pmlogconv/logio.c:82-118 | whatever is returned as a record is framed and lies in front of the place left behind |
| Framing.BadRecordIsPassed | qa/pmlogconv/logio.c:82-118 | after a bad record the place is behind it or at the end of its volume, never in front |
| Framing.EndIsStable | qa/pmlogconv/logio.c:53-100 | at the end, with no further volume to enter, the position is put back to where the call began |
| Framing.ReadsOnAfterTheEnd | qa/pmlogconv/logio.c:53-80 | in front of a volume not seen before the end is reported, and a further call goes on with that volume's records |
| Framing.ReadsAllOnce | qa/pmlogconv/logio.c:30-167 | what reading to the end of an archive returns is determined |
| Framing.ReadsOneVolume | qa/pmlogconv/logio.c:30-167 | a volume of framed records reads as exactly those records |
| Framing.ReadsVolumes | qa/pmlogconv/logio.c:53-80 | a multi-volume archive reads as the volumes in front of the first one that cannot be entered |
| Framing.ArchiveIsConcatenation | qa/pmlogconv/libpcp.c:37-148 | it reads as the concatenation of all volumes if and only if nothing lies at or behind that volume |
| Framing.SecondVolume | qa/pmlogconv/libpcp.c:125-148 | a second volume whose label has not been checked before is lost |
| Framing.PutThenGet | qa/pmlogconv/logio.c:170-190 | a record put behind others is read back behind them |
| Framing.StripMarks | qa/src/stripmark.c:42-76 | succeeds if and only if the file is a sequence of records; the output is the records longer than a mark record, in order, up to where it gives up |
| Framing.SplitIsUnique | qa/src/stripmark.c:42-76 | the split of the input into records is determined by its bytes |
| Framing.KeptAreLonger | qa/src/stripmark.c:67 | a record is kept if and only if it is longer than 20 bytes |
| Framing.StripIdempotent | qa/src/stripmark.c:42-76 | the output is itself a sequence of records, so stripping it again succeeds, and can give only the same output |
| PduRewrite.XlateProperties | qa/pmlogconv/logio.c:233-235 | the translation keeps the sign, is injective and leaves codes above -1000 alone, for any second base of at least 1000 |
| PduRewrite.TranslatedCodes | qa/pmlogconv/logio.c:233-235 | code -1000 - k becomes -12345 - k, and codes above -1000 stay |
| PduRewrite.WrapIsModular | qa/pmlogconv/logio.c:233-235 | int arithmetic is modulo 2 to the 32 into its range |
| PduRewrite.WrapKeepsSign | qa/pmlogconv/logio.c:233-235 | in 32-bit arithmetic the sign survives if and only if the code is not among the lowest ones |
| PduRewrite.RewritePdu | qa/pmlogconv/logio.c:237-260 | the in-place loop keeps the first four words and rewrites the value sets as specified |
| PduRewrite.WalkOverChunks | qa/pmlogconv/logio.c:247-257 | the walk finds exactly the value sets a record is made of and recodes each, nothing else |
| PduRewrite.CutIsComplete | qa/pmlogconv/logio.c:247-257 | every record that can be walked is made of value sets and a rest |
| PduRewrite.SetRoundTrip | qa/pmlogconv/logio.c:218-231 | decoding the encoding of a value set gives it back |
| PduRewrite.SetRoundTripBack | qa/pmlogconv/logio.c:218-231 | encoding what a stretch of words decodes to gives the words back |
| PduRewrite.RecordRoundTrip | qa/pmlogconv/logio.c:247-257 | every record that can be walked is the encoding of its value sets, and a rest |
| PduRewrite.SetRewrite | qa/pmlogconv/logio.c:247-257 | recoding one set is encoding its translation, if and only if the code stays in range |
| PduRewrite.RewriteRefines | qa/pmlogconv/logio.c:237-260 | the in-place rewrite equals decode, translate, encode if and only if all translated codes stay in range |
| PduRewrite.RewrittenDecodes | qa/pmlogconv/logio.c:237-260 | the walk over the rewritten record visits the same offsets and finds the translated sets |
| Merge.NothingLostOrInvented | qa/pmlogconv/pmlogconv.c:84-161 | every data record is written once and in order, and the metadata written is a prefix of the input |
| Merge.MetadataIsUpToDate | qa/pmlogconv/pmlogconv.c:84-161 | when data stamped t is written, unread metadata is exhausted or starts with an instance domain later than t |
| Merge.LeftoverIsLater | qa/pmlogconv/pmlogconv.c:84-161 | what a conversion leaves unread is nothing or starts with an instance domain later than the last stamp written |
| Merge.TimeOrder | qa/pmlogconv/pmlogconv.c:78-161 | a time-ordered archive is written in time order, instance domains first on equal timestamps |
| Merge.ExactlyTheEarlierInDoms | qa/pmlogconv/pmlogconv.c:84-161 | for a time-ordered archive the instance domains written before a data record are exactly those not later than it |
| Merge.AllMetadataCopied | qa/pmlogconv/pmlogconv.c:84-161 | for time-ordered data all metadata is copied if and only if no instance domain is later than the last data record |
| ArchiveOutput.LabelCarries | qa/pmlogconv/pmlogconv.c:42-60 | a label is a framed record with the start time and the volume number in their places |
| ArchiveOutput.VolumeNumbers | src/include/pcp/pmapi.h:482-483 | data volume, metadata and index are numbered 0, -1 and -2 |
| ArchiveOutput.StepMeta | qa/pmlogconv/pmlogconv.c:318-348 | writing metadata keeps the three files as they should be |
| ArchiveOutput.StepData | qa/pmlogconv/pmlogconv.c:268-315 | so does writing data if the metadata offset is restored; restoring the data offset instead makes no difference when the files are equally long and otherwise leaves the end |
| ArchiveOutput.MeantIsSound | qa/pmlogconv/pmlogconv.c:264-349 | with the metadata offset restored, after any run files, index and label time are right and both streams at their ends |
| ArchiveOutput.WrittenIsSound | qa/pmlogconv/pmlogconv.c:264-349 | so they are for the code as it stands if the files are equally long at every entry |
| ArchiveOutput.WrittenAgreesElsewhere | qa/pmlogconv/pmlogconv.c:264-349 | for every run the code as it stands has the data volume, the index label, the label time and the times and data offsets of all index entries as they should be |
| ArchiveOutput.AtEndIffLevel | qa/pmlogconv/pmlogconv.c:301-314 | the streams are at their ends throughout a run if and only if the files are equally long at every entry |
| ArchiveOutput.MisplacedMetadata | qa/pmlogconv/pmlogconv.c:301-314 | metadata behind the first data record lands as far beyond the end of its file as that record is long |
| ArchiveOutput.FinalMetadata | qa/pmlogconv/pmlogconv.c:42-54 | the closing rewrite gives the metadata and the index file the label with the first data record's time and changes nothing else |
| ArchiveOutput.IndexIsExact | qa/pmlogconv/pmlogconv.c:268-315 | there is an index entry for a data record if and only if it is the first or an instance domain was written since the previous one |
| ArchiveOutput.EntryLeadsToRecord | qa/pmlogconv/pmlogconv.c:268-315 | the log offset of an entry leads to the record whose time it carries, its metadata offset to the end of all metadata written before |
| ArchiveOutput.IndexInOrder | qa/pmlogconv/pmlogconv.c:268-315 | entries never go back in time when the data does not |
| ArchiveOutput.EntrySeparatesMetadata | qa/pmlogconv/pmlogconv.c:84-349 | for a time-ordered archive the metadata in front of an entry's offset is exactly that not later than its time |
| Converter.Archives.constructor | qa/pmlogconv/pmlogconv.c:231-257 | the initial state, with the metadata label written |
| Converter.Archives.Refill | qa/pmlogconv/pmlogconv.c:93-124 | buffers are filled without losing a record; failure exactly on a read error |
| Converter.Archives.NextRec | qa/pmlogconv/pmlogconv.c:84-161 | exits exactly on a read error or a repeated descriptor, and otherwise picks what the plan says and sets the current time |
| Converter.Archives.AddIndex | qa/pmlogconv/pmlogconv.c:301-314 | an index entry with the old offsets, and the stream positions left behind |
| Converter.Archives.PutData | qa/pmlogconv/pmlogconv.c:268-316 | the output after a data record |
| Converter.Archives.WriteData | qa/pmlogconv/pmlogconv.c:268-316 | the next record is taken off the input and written as it is to be written, with the label and the index entry that are due |
| Converter.Archives.WriteMeta | qa/pmlogconv/pmlogconv.c:318-348 | the output after a metadata record |
| Converter.Archives.Step | qa/pmlogconv/pmlogconv.c:264-349 | one pass writes the next planned record and leaves the rest of the plan |
| Converter.Archives.Close | qa/pmlogconv/pmlogconv.c:42-54 | both labels are rewritten with the time of the first data record |
| Converter.Archives.Convert | qa/pmlogconv/pmlogconv.c:264-351 | terminates; succeeds if and only if no read error is met and no descriptor is planned twice, and then has written the whole plan; otherwise a prefix |
| Converter.ConvertArchive | qa/pmlogconv/pmlogconv.c:231-351 | the same for an archive of data records rewritten by rewrite_pdu; whenever it succeeds and the records are properly framed, the data volume behind its label reads back as all the rewritten records in order, then ends |
| DataRecords.RewriteRecord | qa/pmlogconv/pmlogconv.c:290-297 | the in-place rewrite of a record buffer gives the record that is to be written, with the time its bytes carry |
| DataRecords.ImageAt | qa/pmlogconv/logio.c:168-190 | every word of a record is written in its place, in network order |
| DataRecords.TimeIsCarried | qa/pmlogconv/pmlogconv.c:139-145 | the time by which a data record is merged is the one in its second and third word, as read and as written |
| DataRecords.InDomTimeIsCarried | qa/pmlogconv/pmlogconv.c:147-157 | the same for an instance domain, in its third and fourth word |
| DataRecords.DescIsRecognised | qa/pmlogconv/pmlogconv.c:125-137 | a metadata record is taken for a descriptor if and only if its second word is 1 |
| DataRecords.DescIdentifier | qa/pmlogconv/pmlogconv.c:125-137 | the identifier of a descriptor is its third word |
| DataRecords.WrittenIsFramed | qa/pmlogconv/logio.c:168-260 | a rewritten record is still framed by its length |
| DataRecords.VolumeIs | qa/pmlogconv/pmlogconv.c:268-300 | the data volume is its label and the data records written, in order |
| DataRecords.WrittenVolumeReads | qa/pmlogconv/logio.c:30-190 | a volume holding all rewritten records reads back as exactly those, then ends |
| LoadMeta.NextGoesForward | qa/pmlogconv/libpcp.c:235-479 | every record read moves the file position forward, inside the file |
| LoadMeta.NameLimit | qa/pmlogconv/libpcp.c:330-386 | a name is read whole if and only if its length is below 4096 and it lies inside the file |
| LoadMeta.ReadName | qa/pmlogconv/libpcp.c:330-386 | one name of a descriptor is read as specified, or the reason why it cannot be |
| LoadMeta.ReadNames | qa/pmlogconv/libpcp.c:330-386 | the loop over a descriptor's names matches its specification |
| LoadMeta.DecodeInDom | qa/pmlogconv/libpcp.c:420-457 | so does the loop over instances and name offsets |
| LoadMeta.ReadBody | qa/pmlogconv/libpcp.c:268-462 | so does the reading of a record between header and trailer, with what is entered although the record fails |
| LoadMeta.LogCtl.AddInDom | qa/pmlogconv/libpcp.c:173-207 | the record goes to the front of its own chain, and no other chain changes |
| LoadMeta.LogCtl.LoadOne | qa/pmlogconv/libpcp.c:235-479 | one record is read and entered before its trailer is checked; a descriptor is entered even when its names fail |
| LoadMeta.LogCtl.Load | qa/pmlogconv/libpcp.c:215-489 | the tables end up holding exactly the records of the file, and the one entered before a failure, with the outcome of reading it |
| LoadMeta.DescsOf | qa/pmlogconv/libpcp.c:299-300 | the descriptor table holds exactly the descriptors among the records |
| LoadMeta.DescsAppend | qa/pmlogconv/libpcp.c:299-300 | it grows by the descriptors of what is loaded, in order and each time they occur |
| LoadMeta.ChainIsReversed | qa/pmlogconv/libpcp.c:173-207 | a chain is the domain's records in reverse file order, all of them and no others |
| LoadMeta.ChainsNewestFirst | qa/pmlogconv/libpcp.c:173-207 | every chain of a time-ordered file is newest first |
| MetaFormat.ReadsInDom | qa/pmlogconv/libpcp.c:420-457 | instance numbers and names laid out in a record are found in the loaded domain, each name at its offset up to NUL |
| MetaFormat.ReadsBack | qa/pmlogconv/libpcp.c:235-479 | a record written in this layout is read back whole |
| MetaFormat.LoadReadsBack | qa/pmlogconv/libpcp.c:215-489 | a file of such records loads successfully and as exactly those records in order; the descriptor table is the descriptors written, once each and in order, the chain of every domain that domain's records in reverse, each with its instances and names |
| MetaFormat.LoadWritten | qa/pmlogconv/libpcp.c:173-489 | the loader run on a label and such records leaves exactly these tables |
| HelpAssembler.SpaceCharacters | src/newhelp/newhelp.c:392-395 | the blanks skipped are the six characters of isspace |
| HelpAssembler.RunIsEmitted | src/newhelp/newhelp.c:368-433 | the loop hands on the collapsed text of each entry, or its first 1022 characters and a newline, after which one @ line is lost |
| HelpAssembler.NeverMore | src/newhelp/newhelp.c:368-433 | never more entries than the simple splitter finds |
| HelpAssembler.CutIsCollapsed | src/newhelp/newhelp.c:424-431 | truncation does no harm to an entry if and only if it removes surplus newlines only |
| HelpAssembler.SplitterIffIntact | src/newhelp/newhelp.c:368-433 | the entries are those of the splitter if and only if every too long entry loses only newlines and is not followed by a proper entry |
| HelpAssembler.LostEntry | src/newhelp/newhelp.c:378-431 | an entry behind a truncated one is lost |
| HelpBuffer.CloseEntry | src/newhelp/newhelp.c:380-388 | the entry handed on is the one collected; what is overwritten behind it |
| HelpBuffer.OpenEntry | src/newhelp/newhelp.c:392-410 | the rest of an @ line is moved to the start of the buffer, or dropped when blank |
| HelpBuffer.AddLine | src/newhelp/newhelp.c:413-431 | a text line is added with its newline, or the entry truncated |
| HelpBuffer.ReadLine | src/newhelp/newhelp.c:370-432 | one pass moves from one mode to the next, with the cursor at most MAXENTRY; its highest cell holds a NUL and no cell above is touched |
| HelpBuffer.BeyondIffSpills | src/newhelp/newhelp.c:370-432 | a pass writes beyond the buffer, and then one cell, if and only if a full-length line without a newline meets an entry of exactly MAXENTRY characters |
| HelpBuffer.FileBeyondIffSpills | src/newhelp/newhelp.c:368-433 | some pass over a file does so if and only if such a line is met on the way |
| HelpBuffer.SpillingFile | src/newhelp/newhelp.c:368-433 | a file that does |
| HelpBuffer.EndOfFile | src/newhelp/newhelp.c:371-390 | the last entry is closed at end of file |
| HelpBuffer.Assemble | src/newhelp/newhelp.c:368-433 | for every file the loop on the buffer hands on exactly the modelled entries; the cell behind the source's buffer is overwritten if and only if the file spills |
| HelpBuffer.ShortLinesFit | src/newhelp/newhelp.c:413-424 | lines that fit in one read never need a cell beyond the buffer |
| HelpIndex.EmittedAreEntries | src/newhelp/newhelp.c:368-433 | every entry handed on can be taken apart by newentry |
| HelpIndex.ParseEntry | src/newhelp/newhelp.c:69-196 | an entry is split into name, one-line text and help text without trailing newlines |
| HelpIndex.HelpFile.Duplicate | src/newhelp/newhelp.c:124-139 | a key is refused exactly when at least two are kept and it equals the latest |
| HelpIndex.HelpFile.Write | src/newhelp/newhelp.c:141-215 | the page grows by the entry, and all offsets, old and new, lead to their texts |
| HelpIndex.HelpFile.NewEntry | src/newhelp/newhelp.c:57-222 | an accepted entry is written and indexed with its texts, a refused one changes nothing |
| HelpIndex.HelpFile.Compile | src/newhelp/newhelp.c:368-433 | after all entries the index holds, in order, exactly the entries the check lets through, each slot leading to the texts of its entry |
| HelpIndex.KeepAllKeys | src/newhelp/newhelp.c:57-222 | the keys of the entries kept are those the check lets through |
| HelpIndex.KeptIsFromRun | src/newhelp/newhelp.c:57-222 | every entry kept is one of the run, under the key of its name |
| HelpIndex.DistinctIffCaught | src/newhelp/newhelp.c:124-139 | the kept keys are distinct if and only if every repetition directly follows its own kind with another key further back |
| HelpIndex.NoKeyLost | src/newhelp/newhelp.c:124-139 | a key is kept at least once if and only if it occurs |
| HelpIndex.FirstIsKept | src/newhelp/newhelp.c:124-139 | where every repetition is caught, the first entry of each key is the one kept |
| HelpIndex.RepetitionsKept | src/newhelp/newhelp.c:124-139 | repetitions that are not noticed |
| HelpLookup.IdCompIsAnOrder | src/newhelp/newhelp.c:224-246 | idcomp is antisymmetric in sign and transitive, as sorting needs |
| HelpLookup.MetricsFirst | src/newhelp/newhelp.c:224-246 | after sorting all metrics come before all instance domains |
| HelpLookup.SerialsAscend | src/newhelp/newhelp.c:224-246 | within metrics and within instance domains the serial numbers ascend |
| HelpLookup.SortedIndexLeadsBack | src/newhelp/newhelp.c:455-470 | after sorting every slot leads to the two texts of an entry with its key, and every entry has such a slot |
| HelpLookup.FindForward | src/libpcp_pmda/src/help.c:125-147 | the first slot with the key, or none exists |
| HelpLookup.FindBackward | src/libpcp_pmda/src/help.c:152-184 | the last slot with an instance domain's key, the flag set, or none exists |
| HelpLookup.LookupFindsEntry | src/libpcp_pmda/src/help.c:125-184 | with distinct keys whatever slot is found leads to the texts of that key's entry |
| HelpLookup.KeptTexts | src/newhelp/newhelp.c:57-222 | the texts kept under a key are those of an entry with that key, and of the first one where every repetition is caught |
| HelpLookup.NotKept | src/newhelp/newhelp.c:57-222 | a key missing from the sorted index belongs to no entry |
| HelpLookup.Lookup | src/libpcp_pmda/src/help.c:125-184 | a search of the sorted index finds texts if and only if an entry has the key, and then the texts of such an entry |
| HelpLookup.HelpText | src/newhelp/newhelp.c:368-470 | from the lines of a help source to the texts found: something is found if and only if an entry has the key, then the texts of such an entry, of the first where every repetition is caught; the entries are the splitter's if and only if the file is intact |
| HelpLookup.IdentTellsKeysApart | src/newhelp/chkhelp.c:75-86 | identifier and type together determine the key; the type is 1 for a metric and 2 for an instance domain, the flag bit is cleared, and searching for what is listed means searching for the key |
| HelpLookup.Enumerator.Next | src/newhelp/chkhelp.c:52-88 | the next slot's identifier and type, or nothing at the end |
| HelpLookup.Enumerator.All | src/newhelp/chkhelp.c:52-88 | repeated calls yield every slot once and in order |
| HelpLookup.ListAndFind | src/newhelp/chkhelp.c:52-88 | every identifier listed is found again by the lookups, in a slot with the key it came from |
| EventLayout.RecsAligned | qa/src/unpack.c:88-121 | every record starts at a multiple of four |
| EventLayout.ParamSizes | qa/src/unpack.c:42-77 | a parameter takes 12 bytes for 32-bit types, 16 for 64-bit types, and otherwise its header and its value rounded up to words |
| EventLayout.WalkIff | src/libpcp/src/events.c:295-420 | walking over items gives them back if and only if each is found where it lies |
| EventLayout.OneParamIff | src/libpcp/src/events.c:360-418 | a parameter comes back if and only if its length fits 24 bits |
| EventLayout.ParamsIff | src/libpcp/src/events.c:320-418 | so do the parameters of a record |
| EventLayout.OneRecIff | src/libpcp/src/events.c:295-420 | a record comes back, with its missed count, if and only if its count is right, its values are short, and a missed-events record has neither other flags nor parameters |
| EventLayout.UnpackIff | src/libpcp/src/events.c:166-439 | all records come back if and only if the record count is right and each of them does |
| EventBuffer.Buffer.CheckBuf | qa/src/unpack.c:17-32 | doubles until there is room, keeps the contents, and says when the pointers into the buffer go stale |
| EventBuffer.DoubledLeast | qa/src/unpack.c:17-32 | the capacity is a power of two times the old one, and half of it would not have been enough |
| EventBuffer.Buffer.Reset | qa/src/unpack.c:93-103 | an empty array of records |
| EventBuffer.Buffer.AddRecord | qa/src/unpack.c:105-123 | one more record, counted if the array header can still be reached |
| EventBuffer.Buffer.AddParam | qa/src/unpack.c:34-91 | one more parameter in the last record, counted if that record can still be reached |
| EventBuffer.Buffer.SetMissed | qa/src/unpack.c:337-339 | the count of a missed-events record is set through erp |
| EventRuns.AfterRecord | qa/src/unpack.c:105-123 | after add_record all counts are right if and only if they were and the array header can be reached |
| EventRuns.AfterParam | qa/src/unpack.c:34-91 | after add_param all counts are right if and only if they were and the record can be reached |
| EventRuns.RunFollows | qa/src/unpack.c:17-123 | after every run size, capacity and records are as described, and the counts are right if and only if no realloc that took place moved the buffer |
| EventRuns.RunsAreSensible | qa/src/unpack.c:17-123 | the records of a run are such that only their counts can keep them from coming back |
| EventRuns.UnpacksIffRight | src/libpcp/src/events.c:166-439 | such records are unpacked as they are if and only if every count is right |
| EventRuns.Pack | qa/src/unpack.c:17-123 | the records of any run of packing calls from reset on are unpacked as they are if and only if no realloc on the way moves the buffer |
| EventRuns.NeverGrows | qa/src/unpack.c:17-32 | a run never reallocates if and only if its size stays below the capacity less one |
| EventRuns.AlwaysMoving | qa/src/unpack.c:17-32 | if every realloc moves the buffer, the records survive if and only if the run never reallocates |
| EventRuns.LosingRun | qa/src/unpack.c:17-123 | one record with a long parameter in the initial buffer, moved: the parameter is not unpacked |
| InstLists.ResultInstList | qa/src/torture_indom.c:10-22 | the instances of a result in order |
| InstLists.CmpList | qa/src/torture_indom.c:24-42 | 0 exactly when everything in the first list is in the second |
| InstLists.Pigeonhole | qa/src/torture_indom.c:24-42 | for a list without repetitions and one of equal length that makes the lists permutations |
| InstLists.ComparisonSufficesIffDistinct | qa/src/torture_indom.c:24-42 | it does so for every second list if and only if the first has no repetitions |
| InstLists.ThreeListsAgree | qa/src/torture_indom.c:140-167 | after the checks of do_test the three lists are equal as multisets |

## Left out

- Option parsing, printing, debug output, file opening and the rest of the QA drivers: plumbing.
- libpcp behind the cores: library calls are atomic steps whose results are chosen freely, or parameters.
- Failing mutex, condition variable and memory allocation, errno values, partial writes.
- EarlyExits.SameExit: assumes, as pmUseContext does, that whether a context can be used depends on its handle only.
- NamespaceReload.CompleteRuns: a load that fails ends the process; such a run is a prefix of one modelled here, and LookupsSeeTheirNamespace covers it.
- ProfiledFetch.AddSelects: calls for all instance domains at once (PM_INDOM_NULL) set a global default that no thread of multithread7.c uses.
- ProfiledFetch.FetchesAreIsolated: the error paths of multithread7.c, which exit while holding the mutex, are not modelled.
- Barrier.BarrierSafety: assumes no spurious wakeup, which the code needs; see SpuriousWakeupsMatter.
- ArchiveOutput: of a label only length, volume number and start time are given; the byte format of index entries is abstract.
- Framing.LogFile.Get: a next volume that cannot be opened leaves the place where it was; that the source has closed its stream by then, and what a further call would do, is not modelled.
- Converter.ConvertArchive: what is written for a descriptor, with a name from the name space added, is the parameter described; data records are those whose value sets lie inside them, as rewrite_pdu needs; the class calls the rewrite as a function, which RewriteRecord proves equal to the loop in the buffer.
- Converter.Archives.Convert: write errors and the 2 GB check of index offsets are not modelled.
- LoadMeta.LogCtl.Load: lists that do not fit their record, and names longer than the buffer, end loading with the outcome Overrun; the code has no check there. The name tree is a list of names kept with each descriptor.
- PduRewrite.RewritePdu: requires the value sets to lie inside the record, as the code does.
- HelpBuffer.Assemble: the model's buffer has a cell behind the source's, so that writing it can be stated; what the cell belongs to in the source is not modelled.
- HelpIndex.HelpFile.NewEntry: the NULs newentry puts into its buffer are modelled by slices, the lookup of names and numbers by the parameter keyOf, and write errors are left out; the growth of the index array by doubling is not modelled.
- HelpLookup.Sort: an insertion sort stands in for qsort; the lemmas about the sorted index use qsort's contract only, a sorted permutation.
- HelpLookup.Lookup: the index and the page are searched in memory; the header slot, file access and the buffer of the caller are left out.
- EventBuffer.Buffer.AddParam: 32-bit fields are kept whole, so byte order plays no part; counts are required to fit a word, and the doubling of an int buffer size does not overflow. A count updated through a stale pointer is lost in the model.
- Jenkins: the other bit-mixing claims of the original comment (avalanche) are statistical and not modelled.
- The chkhelp and newhelp command lines, pmdate, pmcd_wait, permfetch and the remaining QA programs would only add easy members.
