# A verified model of the storage, scheduling and codec code under the pods

The application stores its data with LevelDB, runs its network loop on libuv and exchanges messages with nanopb. This
project models the hard parts of that vendored code in Dafny and proves what they promise. Run

    dafny verify dfyconfig.toml

in this directory to check all of it.

## How the models are built

Code that changes things step by step is modelled by classes and methods with the same fields, loops and branches, and
each method is tied by its `ensures` to a specification function or to the property itself. What the source promises is
then proved about the specification. Protocols between threads are state machines: a step is a region under a mutex, or
one unlocked operation between two such regions, and theorems speak about every run.

* **LevelDB** (`dbformat`, `store`, `compaction`, `outputs`, `compactionjob`, `dbiter`, `engine*`, `dbimpl`, `recovery`). Entries are
  (user key, sequence number, type, value). The meaning of the store is: the newest entry of a key with a sequence number
  up to the snapshot, where a deletion means absent. `engine.dfy` is the state machine of writers, memtable flush,
  compaction, readers, crash and recovery; `engineinv.dfy` is its invariant; `enginewriters`, `enginebackground`,
  `enginejob` and `enginelife` prove that each kind of step keeps it; `enginetheorems.dfy` draws the conclusions for runs,
  and `engineprogress.dfy` shows that background work always comes closer to serving a sleeping writer.
  `engineiterator.dfy` joins the theorems to the iterator of `dbiter.dfy`, `compactionjob.dfy` joins the compaction loop of
  `outputs.dfy` to the engine.
  `dbimpl.dfy` and `recovery.dfy` hold the methods of `DBImpl`, each proved to take the matching step. A manifest commit
  is atomic but may fail with an unknown outcome, appending to a log may fail before or after the record is there, and a
  crash may come between any two steps, in the middle of collecting garbage, and in the middle of opening: after a table or
  the new log was written, or after the manifest was.
* **libuv scheduling** (`heap`, `timer`, `queue`, `threadpool*`). The heap and the queue are pointer structures whose nodes
  carry their own links. The timer pass is proved over the heap. The thread pool is a state machine, and its class takes
  the machine's steps.
* **libuv text codecs** (`punycode`, `idnalabel`, `idnafits`, `idna`, `idnasamples`, `utf8`, `hostname`, `inet4`, `inet6`, `inet`, `inetprint`). The
  Punycode encoder is proved against a decoder written from section 6.2 of RFC 3492, the UTF-8 reader against the encoding
  of section 3 of RFC 3629, and the address parsers against the text forms of section 2.2 of RFC 4291, in both
  directions. The IPv6 printer makes the choices of section 4 of RFC 5952.
* **nanopb** (`pbwire`, `pbvarint`, `pbfield`, `pbcodec`, `pbbounds`, `pbround`, `pbproperties`, `pbrequired`, `pblimits`, `pbencode`, `pbdecode`). Descriptors are
  trees of static required, optional, repeated and oneof fields with the offsets of the generated tables. A struct in
  memory is kept by the offsets the iterator computes. `pbcodec.dfy` says what is written and read; the methods on
  streams compute exactly that; `pbround.dfy` proves the round trip. As in the application's build, sizes are 32 bits wide.

## Where the code is not what one might expect

* `CompactionWork.SentinelSnapshotDropsAll`: with a smallest snapshot equal to the largest sequence number, the compaction
  loop would drop everything. `CompactionWork.CompactionPreservesReads` holds for every smaller one.
* `Utf8.AcceptsMalformed`: the UTF-8 reader accepts some triples that are not UTF-8, such as E1 C0 C0.
  `Utf8.AcceptsEncoded` says exactly when what it accepts is an encoding.
* `Utf8.DropsCutOff`: a sequence cut off by the end of a host name is dropped without an error.
  `Utf8.AcceptedIsEncoded` says exactly which accepted texts are well-formed.
* `Idna.ToAsciiLabel`: an ASCII label of 2^31 code points or more is written, but the count that is returned is negative.
* `Idna.TwoLabelsOneForm`: an ASCII label that starts with the prefix of converted labels stays as it is, so two labels can
  have the same form. `Idna.SameFormMeans` and `Idna.SharesForm` say exactly when.
* `ThreadPoolCancel.CancelledTwiceCalledTwice`: taking a request out of a queue does not clear its links, so cancelling it
  during a callback that was given `UV_ECANCELED` succeeds, and it is called back again. `ThreadPoolCancel.CalledBackOnce`
  and `ThreadPoolCancel.CalledBackAgainIff` say exactly when callbacks run once.
* `Inet4.CopyString`: with a buffer of no characters, printing an IPv6 address reports success.
* `InetPrinter.PrintWords`: the branch for seven leading zero words before an IPv4 tail cannot be reached.
* `PbVarint.Reads32Exactly`: the 32-bit reader takes some numbers beyond 32 bits for smaller ones. `PbVarint.Reads32Canonical`
  says which in the shortest encoding, `PbVarint.ReadsBackIff32` when one of any length is read as its number.
* `PbVarint.Read32Wraps`: the bit position of that reader has eight bits, so byte 37 counts as if it began at bit 3.
* `PbVarint.Read64Truncates`: the 64-bit reader loses the bits of the tenth byte above bit 63. `PbVarint.ReadsBackIff64`
  says exactly when an encoding is read as its number.
* `PbProperties.StringBack`: a string that fills its buffer without a NUL is encoded, but not decoded.
* `PbRequired.SixtyFourOfSixtyFive`: of more than 64 required fields the decoder tracks the first 64.
  `PbRequired.InsistsOnAllIff` says for which message types it insists on all of them.
* `PbProperties.SkippedUnlessTerminator`: a message type without fields reads a key with tag 0 as a boolean; that is the one
  unknown field which is not skipped.

## Model

| member | source | states |
|---|---|---|
| `DbFormat.PackSequenceAndType` | `InstagramFirebaseWork/Pods/leveldb-library/db/dbformat.cc:14-18` | the packed tag fits eight bytes, and dividing by 256 gives back sequence number and type |
| `DbFormat.ParseInvertsAppend` | `InstagramFirebaseWork/Pods/leveldb-library/db/dbformat.h:165-175` | parsing succeeds on exactly the strings that appending produces, and returns exactly the key that was appended |
| `DbFormat.CompareRealisesOrder` | `InstagramFirebaseWork/Pods/leveldb-library/db/dbformat.cc:51-67` | comparing encoded keys realises the documented order: user key ascending, then sequence number descending, then type descending; equal only for equal keys |
| `DbFormat.SeekKeyBounds` | `InstagramFirebaseWork/Pods/leveldb-library/db/dbformat.h:53-59` | the seek key for (k, s) sorts at or before exactly those entries of k whose sequence number is at most s |
| `DbFormat.EarliestKeyHeads` | `InstagramFirebaseWork/Pods/leveldb-library/db/dbformat.cc:76-85` | a key with the largest sequence number and the seek type sorts before everything else with its user key |
| `DbFormat.FindShortestSeparator` | `InstagramFirebaseWork/Pods/leveldb-library/db/dbformat.cc:69-86` | the separator stays within [start, limit), is no longer than start, and changes exactly when the user comparator offers a shorter, larger user key |
| `DbFormat.FindShortSuccessor` | `InstagramFirebaseWork/Pods/leveldb-library/db/dbformat.cc:88-101` | the successor is not smaller and no longer than the key, and changes exactly when a shorter, larger user key exists |
| `Store.ReadsLayered` | `InstagramFirebaseWork/Pods/leveldb-library/db/db_impl.cc:1125-1134` | of two layers of which one holds only newer entries, the newer decides a read whenever it sees the key |
| `Store.UnseenEntries` | `InstagramFirebaseWork/Pods/leveldb-library/db/db_impl.cc:1100-1109` | entries above a snapshot do not change what a read at the snapshot finds |
| `CompactionWork.RuleAMeansHidden` | `InstagramFirebaseWork/Pods/leveldb-library/db/db_impl.cc:937-948` | looking one entry back decides exactly whether a newer entry of the same key is visible to every live snapshot, although the input may repeat entries |
| `CompactionWork.KeptDistinct` | `InstagramFirebaseWork/Pods/leveldb-library/db/db_impl.cc:937-948` | no entry is kept twice, if the input repeats only entries that all live snapshots see |
| `CompactionWork.KeptIsNeeded` | `InstagramFirebaseWork/Pods/leveldb-library/db/db_impl.cc:929-962` | an entry is kept if and only if somewhere in the input no newer version of its key, and no copy, comes before it that all live snapshots see, and it is not a deletion that all of them see of a key at its base level |
| `CompactionWork.ObsoleteMarkerGoes` | `InstagramFirebaseWork/Pods/leveldb-library/db/db_impl.cc:949-961` | a deletion that all snapshots see, of a key that no deeper file holds, leaves nothing behind |
| `CompactionWork.WhatADropLeaves` | `InstagramFirebaseWork/Pods/leveldb-library/db/db_impl.cc:929-962` | every dropped entry leaves a kept entry that hides it from each live snapshot, or a base-level key of which only newer entries are kept |
| `CompactionWork.CompactionPreservesReads` | `InstagramFirebaseWork/Pods/leveldb-library/db/db_impl.cc:890-963` | for every key and every snapshot not below the smallest one, reads find the same value before and after the drop rules, whatever the rest of the store holds within the base-level answers |
| `CompactionWork.SentinelSnapshotDropsAll` | `InstagramFirebaseWork/Pods/leveldb-library/db/db_impl.cc:905-948` | the bound on the smallest snapshot is needed: at the largest sequence number the loop would drop all of its input |
| `CompactionWork.Compaction.IsBaseLevelForKey` | `InstagramFirebaseWork/Pods/leveldb-library/db/version_set.cc:1533-1553` | the resuming search answers for the key alone, independent of earlier calls, as long as keys do not descend |
| `CompactionWork.Compaction.SearchLevel` | `InstagramFirebaseWork/Pods/leveldb-library/db/version_set.cc:1536-1550` | one level's resuming search says exactly whether some file of the level covers the key |
| `CompactionWork.AtBaseLevelMeans` | `InstagramFirebaseWork/Pods/leveldb-library/db/version_set.cc:1533-1553` | a key is at its base level if and only if no file of a deeper level has a range that holds it |
| `CompactionOutputs.CompactionState.DecideDrop` | `InstagramFirebaseWork/Pods/leveldb-library/db/db_impl.cc:929-963` | the loop's variables decide an entry's fate as the drop rules do, and stay what the rules need for the next entry |
| `CompactionOutputs.CompactionState.ProcessEntry` | `InstagramFirebaseWork/Pods/leveldb-library/db/db_impl.cc:905-996` | one turn of the loop extends the outputs by exactly the kept entry, or by nothing, and closes an output exactly for a reason |
| `CompactionOutputs.CompactionState.FinishCompactionOutputFile` | `InstagramFirebaseWork/Pods/leveldb-library/db/db_impl.cc:811-858` | finishing an output succeeds exactly when the input has no error and Finish, Sync, Close and, for a file that holds anything, opening it as a table all do; the outputs stay as they are |
| `CompactionOutputs.CompactionState.DoCompactionWork` | `InstagramFirebaseWork/Pods/leveldb-library/db/db_impl.cc:878-1015` | success means: the concatenated outputs hold an entry if and only if it is needed, and are exactly the kept entries in order; every output but the last was closed because it reached the size limit or the loop was told to stop there, and no stop and no full file was passed over; each is non-empty with smallest and largest its first and last key, and strictly before the next if the input repeats only what all live snapshots see; without faults and shutdown it succeeds |
| `CompactionOutputs.OutputsDisjoint` | `InstagramFirebaseWork/Pods/leveldb-library/db/db_impl.cc:968-996` | whatever is cut into outputs, one ends strictly before a later one begins if and only if they do not share that entry, so outputs of distinct entries cover disjoint ranges in ascending order |
| `CompactionOutputs.KeptInOrder` | `InstagramFirebaseWork/Pods/leveldb-library/db/db_impl.cc:937-996` | if the input repeats only entries that all live snapshots see, every way to cut the kept entries into outputs gives disjoint ranges in ascending order |
| `CompactionOutputs.RepeatMayTouch` | `InstagramFirebaseWork/Pods/leveldb-library/db/db_impl.cc:937-996` | an entry repeated above the smallest snapshot would be kept twice and could end one output and start the next |
| `CompactionWork.BaseLevelAnswersSuffice` | `InstagramFirebaseWork/Pods/leveldb-library/db/db_impl.cc:952-959` | if the levels above hold newer entries and those below lie within their files' ranges, the file-level base test answers as the drop rule needs |
| `CompactionJob.CompactedFilesAnswerAlike` | `InstagramFirebaseWork/Pods/leveldb-library/db/db_impl.cc:878-1015` | end to end: with the other levels where the version says, the loop's output files in place of its inputs answer every read at a live snapshot as the inputs did |
| `CompactionJob.PickedMayStart` | `InstagramFirebaseWork/Pods/leveldb-library/db/db_impl.cc:688-745` | the engine's condition for starting a compaction follows from where the other tables of the version are |
| `CompactionJob.LoopMayOpen` | `InstagramFirebaseWork/Pods/leveldb-library/db/db_impl.cc:790-809` | between two outputs of the loop, the engine may open the next one |
| `CompactionJob.LoopMayWrite` | `InstagramFirebaseWork/Pods/leveldb-library/db/db_impl.cc:811-858` | with an output open, the engine may finish it with the entries the loop put into it |
| `CompactionJob.LoopWrites` | `InstagramFirebaseWork/Pods/leveldb-library/db/db_impl.cc:811-858` | the finished file holds exactly the entries of that output, and the loop has written one output more |
| `CompactionJob.LoopMayCommit` | `InstagramFirebaseWork/Pods/leveldb-library/db/db_impl.cc:860-876` | when the loop has written all of its outputs, the engine may install them |
| `CompactionJob.OutputsNeverTouch` | `InstagramFirebaseWork/Pods/leveldb-library/db/db_impl.cc:890-996` | in every state of every run, whatever outputs the loop makes of the compaction at work, each ends strictly before the next begins |
| `CompactionJob.TablesShareNothing` | `InstagramFirebaseWork/Pods/leveldb-library/db/db_impl.cc:860-876` | in every state of every run, two current tables share no entry written since the process began, and two outputs of a compaction share none at all |
| `DbIterator.LiveListIsWhatReadersFind` | `InstagramFirebaseWork/Pods/leveldb-library/db/db_iter.cc:168-198` | the list the cursor moves over holds exactly the pairs that reads at the snapshot find |
| `DbIterator.LiveListAscends` | `InstagramFirebaseWork/Pods/leveldb-library/db/db_iter.cc:168-198` | the keys of that list strictly ascend |
| `DbIterator.DBIter.Next` | `InstagramFirebaseWork/Pods/leveldb-library/db/db_iter.cc:141-166` | from either direction, Next moves the list cursor one pair on |
| `DbIterator.DBIter.Prev` | `InstagramFirebaseWork/Pods/leveldb-library/db/db_iter.cc:200-225` | from either direction, Prev moves the list cursor one pair back |
| `DbIterator.DBIter.FindNextUserEntry` | `InstagramFirebaseWork/Pods/leveldb-library/db/db_iter.cc:168-198` | stands at the first live entry from a position on, skipping hidden and deleted ones; none means there is none |
| `DbIterator.DBIter.FindPrevUserEntry` | `InstagramFirebaseWork/Pods/leveldb-library/db/db_iter.cc:227-267` | stands at the last live entry before a position, with only invisible entries between the inner position and it |
| `DbIterator.DBIter.Seek` | `InstagramFirebaseWork/Pods/leveldb-library/db/db_iter.cc:269-281` | stands at the first pair of the list whose key is not below the target |
| `DbIterator.DBIter.SeekToFirst` | `InstagramFirebaseWork/Pods/leveldb-library/db/db_iter.cc:283-292` | stands at the first pair of the list |
| `DbIterator.DBIter.SeekToLast` | `InstagramFirebaseWork/Pods/leveldb-library/db/db_iter.cc:294-299` | stands at the last pair of the list |
| `DbIterator.DBIter.KeyAndValue` | `InstagramFirebaseWork/Pods/leveldb-library/db/db_iter.cc:64-71` | key and value are those of the list at the cursor, in both directions |
| `DbIterator.DBIter.NewerWriteArrives` | `InstagramFirebaseWork/Pods/leveldb-library/db/db_impl.cc:1147-1157` | a write newer than the iterator's snapshot, wherever it lands, changes neither the list nor the cursor |
| `EngineTheorems.StepKeeps` | `InstagramFirebaseWork/Pods/leveldb-library/db/db_impl.cc:1185-1256` | the invariant of contents, files, use, writers and scheduling is kept by every step of writers, background thread, readers, crashes and recovery |
| `EngineTheorems.RunKeepsInv` | `InstagramFirebaseWork/Pods/leveldb-library/db/db_impl.cc:1185-1256` | the invariant holds in every state of every run |
| `EngineTheorems.AcknowledgedWritesSurvive` | `InstagramFirebaseWork/Pods/leveldb-library/db/db_impl.cc:1204-1236` | a write acknowledged at any point of a run is part of what every later open state answers reads with, across crashes, failed commits, flushes and compactions |
| `EngineTheorems.AcknowledgedIsSeen` | `InstagramFirebaseWork/Pods/leveldb-library/db/db_impl.cc:1104-1109` | every acknowledged write has sequence numbers that a read beginning later, without a snapshot of its own, sees |
| `EngineTheorems.SmallestIsOldest` | `InstagramFirebaseWork/Pods/leveldb-library/db/db_impl.cc:890-894` | in every state of every run the snapshot a compaction goes by is the oldest live one, or the last sequence number if there is none |
| `EngineTheorems.RecoveryIsExact` | `InstagramFirebaseWork/Pods/leveldb-library/db/db_impl.cc:280-369` | recovery brings back every committed group plus at most groups that were logged and never acknowledged, under their original sequence numbers, and continues above all of them |
| `EngineTheorems.RecoveryFindsItsFiles` | `InstagramFirebaseWork/Pods/leveldb-library/db/db_impl.cc:330-347` | a recovering process finds every table its manifest names |
| `EngineTheorems.CommittedWasWritten` | `InstagramFirebaseWork/Pods/leveldb-library/db/db_impl.cc:1204-1215` | every record that is committed or in a log was formed by some leader from the batches then queued, with the sequence number that leader took |
| `EngineTheorems.NumbersAreNeverReused` | `InstagramFirebaseWork/Pods/leveldb-library/db/db_impl.cc:1202-1207` | over whole runs, crashes included, no sequence number names two different committed entries |
| `EngineTheorems.LayersAreOrdered` | `InstagramFirebaseWork/Pods/leveldb-library/db/db_impl.cc:1112-1134` | in every state, memtable, immutable memtable and tables are layers of ever older entries, with one entry per sequence number: what a lookup relies on |
| `EngineTheorems.ReadersStayCorrect` | `InstagramFirebaseWork/Pods/leveldb-library/db/db_impl.cc:1062-1087` | an open reader keeps answering as all committed entries do at its snapshot, through flushes, compactions and garbage collection, while its memtable grows |
| `EngineIterator.IteratorShowsSnapshot` | `InstagramFirebaseWork/Pods/leveldb-library/db/db_impl.cc:1147-1157` | in every state of every run, the list an open reader's iterator moves over holds exactly the pairs that all committed entries give at its snapshot, in ascending order of keys |
| `EngineIterator.IteratorsAgree` | `InstagramFirebaseWork/Pods/leveldb-library/db/db_impl.cc:1062-1087` | two iterators at one snapshot move over the same list, whichever tables and memtables they pin and whatever those gained |
| `EngineTheorems.GroupsAreAtomic` | `InstagramFirebaseWork/Pods/leveldb-library/db/db_impl.cc:1104-1117` | the current sequence number, every snapshot and every reader see whole groups only, also while a leader inserts without the mutex |
| `EngineTheorems.GroupsAreSerial` | `InstagramFirebaseWork/Pods/leveldb-library/db/db_impl.cc:1239-1256` | writers leave in arrival order, groups take consecutive ranges of sequence numbers (failed groups use theirs up) and hold exactly their members' batches, and a sync writer told OK was in a synced group |
| `EngineTheorems.NothingNeededIsDeleted` | `InstagramFirebaseWork/Pods/leveldb-library/db/db_impl.cc:223-278` | no step removes a table of the current version, an open reader, the manifest on disk, or an output still to be installed, nor a record of a log that recovery needs |
| `EngineTheorems.PendingWorkIsScheduled` | `InstagramFirebaseWork/Pods/leveldb-library/db/db_impl.cc:648-663` | with the mutex free, an immutable memtable without error or shutdown has a background call scheduled, and a writer sleeps only while one is |
| `EngineProgress.SleepersAreServed` | `InstagramFirebaseWork/Pods/leveldb-library/db/db_impl.cc:669-686` | from every state of every run in which a writer sleeps, finitely many background steps, none of them a failure and each output written once, lead to a state in which it is awake, no memtable is left to flush and no error was recorded |
| `EngineProgress.SleepersWaitLess` | `InstagramFirebaseWork/Pods/leveldb-library/db/db_impl.cc:669-784` | whichever background steps are taken: while a writer sleeps, every one that does not fail wakes it or comes closer to the step that does, and no step of a writer or reader moves away |
| `EngineTheorems.SleepersAreWoken` | `InstagramFirebaseWork/Pods/leveldb-library/db/db_impl.cc:535-566` | clearing the immutable memtable, recording an error and ending background work each wake the writers |
| `EngineWriters.WriterKeeps` | `InstagramFirebaseWork/Pods/leveldb-library/db/db_impl.cc:1185-1370` | every step of a writer keeps the invariant |
| `EngineBackground.FlushKeeps` | `InstagramFirebaseWork/Pods/leveldb-library/db/db_impl.cc:535-566` | every step of a memtable flush keeps the invariant, although its file leaves the pending set before the manifest commit |
| `EngineBackground.CommitFlushKeeps` | `InstagramFirebaseWork/Pods/leveldb-library/db/db_impl.cc:513-555` | leaving the pending set before the commit is harmless: nothing is collected until the flush ends |
| `EngineBackground.AbortFlushKeeps` | `InstagramFirebaseWork/Pods/leveldb-library/db/db_impl.cc:550-565` | a commit of unknown outcome leaves memory and disk consistent: the table may be named twice, never missing |
| `EngineBackground.FlushInstalledRepeats` | `InstagramFirebaseWork/Pods/leveldb-library/db/db_impl.cc:513-533` | neither does installing a flushed memtable |
| `EngineBackground.GarbageKeeps` | `InstagramFirebaseWork/Pods/leveldb-library/db/db_impl.cc:223-278` | garbage collection keeps the invariant, and does nothing after a background error |
| `EngineJob.JobKeeps` | `InstagramFirebaseWork/Pods/leveldb-library/db/db_impl.cc:688-784` | every step of a compaction keeps the invariant |
| `EngineJob.CompactedStandsFor` | `InstagramFirebaseWork/Pods/leveldb-library/db/db_impl.cc:860-876` | tables with a compaction's outputs in place of its inputs still stand for all that was flushed, at every snapshot still in use |
| `EngineJob.InputRepeatsBelow` | `InstagramFirebaseWork/Pods/leveldb-library/db/db_impl.cc:890-896` | what two inputs of a compaction share is seen by all live snapshots |
| `EngineJob.PieceWritten` | `InstagramFirebaseWork/Pods/leveldb-library/db/db_impl.cc:811-858` | finishing an output with the next kept entries leaves outputs that share nothing and together hold what was written so far |
| `EngineJob.InstalledRepeats` | `InstagramFirebaseWork/Pods/leveldb-library/db/db_impl.cc:860-876` | installing a compaction's outputs lets no two current tables share an entry written since the process began |
| `EngineLife.ReaderKeeps` | `InstagramFirebaseWork/Pods/leveldb-library/db/db_impl.cc:1062-1087` | taking and releasing snapshots and opening and closing readers keep the invariant |
| `EngineLife.CommittedIsOnDisk` | `InstagramFirebaseWork/Pods/leveldb-library/db/db_impl.cc:280-369` | at any moment what all committed groups wrote was flushed, or is in a table that the manifest names, or in a log from its log number on |
| `EngineTheorems.DiskAnswersAsCommitted` | `InstagramFirebaseWork/Pods/leveldb-library/db/db_impl.cc:280-369` | in every state of every run, open or not, reading the tables of the manifest and the logs from its log number on answers every read in use as all committed writes and the records of those logs do, and each of those records was written by some group |
| `EngineLife.LeaveLogKeeps` | `InstagramFirebaseWork/Pods/leveldb-library/db/db_impl.cc:1483-1497` | an attempt to open that dies after creating its log leaves a disk that can be recovered |
| `EngineLife.LeaveManifestKeeps` | `InstagramFirebaseWork/Pods/leveldb-library/db/db_impl.cc:1498-1504` | an attempt to open that dies after rewriting the manifest leaves a disk that can be recovered |
| `EngineLife.OtherTableKeeps` | `InstagramFirebaseWork/Pods/leveldb-library/db/db_impl.cc:234-276` | so does one that leaves a table the manifest does not name, or is cut off while deleting such tables |
| `EngineLife.LoseLogKeeps` | `InstagramFirebaseWork/Pods/leveldb-library/db/db_impl.cc:245-248` | so does one that is cut off while deleting logs no longer needed |
| `EngineLife.CrashKeeps` | `InstagramFirebaseWork/Pods/leveldb-library/db/db_impl.cc:280-369` | a crash at any step leaves a disk that the invariant allows to be recovered |
| `EngineLife.OpenKeeps` | `InstagramFirebaseWork/Pods/leveldb-library/db/db_impl.cc:1474-1515` | opening to the end after a crash, and after any number of attempts that died, re-establishes the invariant for a live database |
| `DbImpl.DBImpl.MaybeScheduleCompaction` | `InstagramFirebaseWork/Pods/leveldb-library/db/db_impl.cc:648-663` | refines the scheduling step |
| `DbImpl.DBImpl.RecordBackgroundError` | `InstagramFirebaseWork/Pods/leveldb-library/db/db_impl.cc:640-646` | refines the error step: only the first error is recorded and wakes the writers |
| `DbImpl.DBImpl.BackgroundCall` | `InstagramFirebaseWork/Pods/leveldb-library/db/db_impl.cc:669-700` | a memtable to flush comes before a compaction; nothing is done after shutdown or an error |
| `DbImpl.DBImpl.EndBackgroundCall` | `InstagramFirebaseWork/Pods/leveldb-library/db/db_impl.cc:669-686` | refines the end of a background call: reschedules if needed and wakes everybody |
| `DbImpl.DBImpl.Clean` | `InstagramFirebaseWork/Pods/leveldb-library/db/db_impl.cc:234-276` | going through the directory file by file keeps exactly the live tables and temporary files, the logs still needed and the descriptors from the current manifest on |
| `DbImpl.DBImpl.DeleteObsoleteFiles` | `InstagramFirebaseWork/Pods/leveldb-library/db/db_impl.cc:223-278` | refines the collection step, and after a background error deletes nothing |
| `DbImpl.ExactlyGarbageGoes` | `InstagramFirebaseWork/Pods/leveldb-library/db/db_impl.cc:223-278` | collection leaves exactly the tables of the current version, of readers and of running work, and the logs from the log number on; after a background error it leaves everything |
| `DbImpl.DBImpl.JoinQueue` | `InstagramFirebaseWork/Pods/leveldb-library/db/db_impl.cc:1191-1192` | refines the step in which a writer joins the queue |
| `DbImpl.DBImpl.MakeRoomForWrite` | `InstagramFirebaseWork/Pods/leveldb-library/db/db_impl.cc:1310-1370` | each turn fails, delays, proceeds, sleeps or switches exactly under the conditions of the source, and refines the matching step |
| `DbImpl.DBImpl.SwitchMemtable` | `InstagramFirebaseWork/Pods/leveldb-library/db/db_impl.cc:1347-1366` | refines the switch to a new log and an empty memtable |
| `DbImpl.DBImpl.BuildBatchGroup` | `InstagramFirebaseWork/Pods/leveldb-library/db/db_impl.cc:1260-1306` | the loop takes exactly the writers that may join, and merges their batches in queue order |
| `DbImpl.GroupWithinLimit` | `InstagramFirebaseWork/Pods/leveldb-library/db/db_impl.cc:1267-1304` | a group stays within the limit set by its first batch unless that batch stands alone, and no sync writer joins a leader that does not sync |
| `DbImpl.ByteSizeIs` | `InstagramFirebaseWork/Pods/leveldb-library/db/db_impl.cc:1267-1270` | the size a batch counts with: twelve bytes of header, and tag, lengths and strings of each operation |
| `DbImpl.GroupIsMaximal` | `InstagramFirebaseWork/Pods/leveldb-library/db/db_impl.cc:1267-1304` | a group ends only with the queue, before a sync writer that its leader does not cover, or before a batch that would exceed the limit of 1 MB, or of 128 KB more than a small first batch |
| `DbImpl.DBImpl.StartGroup` | `InstagramFirebaseWork/Pods/leveldb-library/db/db_impl.cc:1202-1207` | refines the step in which the leader forms its group and takes its sequence numbers |
| `DbImpl.DBImpl.InsertEntry` | `InstagramFirebaseWork/Pods/leveldb-library/db/db_impl.cc:1223-1225` | refines the insertion of one entry while the mutex is released |
| `DbImpl.DBImpl.CloseGroup` | `InstagramFirebaseWork/Pods/leveldb-library/db/db_impl.cc:1226-1236` | refines the leader's return: the numbers are used up, and a failed sync forbids later writes |
| `DbImpl.DBImpl.PopWriters` | `InstagramFirebaseWork/Pods/leveldb-library/db/db_impl.cc:1239-1248` | the loop takes exactly the members of the group off the queue |
| `DbImpl.DBImpl.FinishGroup` | `InstagramFirebaseWork/Pods/leveldb-library/db/db_impl.cc:1226-1256` | refines the end of a group: everybody in it gets the same outcome |
| `DbImpl.DBImpl.SearchLayers` | `InstagramFirebaseWork/Pods/leveldb-library/db/db_impl.cc:1125-1134` | memtable, immutable memtable and tables in this order give exactly the value that all of them together give, and the tables are consulted exactly when neither memtable sees the key |
| `DbImpl.DBImpl.Get` | `InstagramFirebaseWork/Pods/leveldb-library/db/db_impl.cc:1100-1136` | although the mutex is released and the memtable grows meanwhile, the value is the one that all readable entries give at the snapshot |
| `DbImpl.DBImpl.FinishGet` | `InstagramFirebaseWork/Pods/leveldb-library/db/db_impl.cc:1138-1140` | back under the mutex, refines the scheduling step exactly when the tables were consulted and a seek compaction became due |
| `DbImpl.LayersDecide` | `InstagramFirebaseWork/Pods/leveldb-library/db/db_impl.cc:1125-1134` | the first layer that sees the key answers for all of them |
| `LogRecovery.OpeningDB.WriteLevel0Table` | `InstagramFirebaseWork/Pods/leveldb-library/db/db_impl.cc:491-533` | a non-empty memtable becomes a table under a fresh number; an empty one leaves none |
| `LogRecovery.OpeningDB.ReplayRecord` | `InstagramFirebaseWork/Pods/leveldb-library/db/db_impl.cc:418-452` | replaying a record adds exactly its entries, flushing a full memtable to a new table |
| `LogRecovery.OpeningDB.RecoverLogFile` | `InstagramFirebaseWork/Pods/leveldb-library/db/db_impl.cc:371-489` | a log's records end up in new tables and the memtable, which is kept only if the last log is reused untouched |
| `LogRecovery.OpeningDB.Recover` | `InstagramFirebaseWork/Pods/leveldb-library/db/db_impl.cc:349-366` | replaying the logs in order of their numbers accounts for all of their records, and the largest sequence number bounds them |
| `LogRecovery.OpeningDB.Open` | `InstagramFirebaseWork/Pods/leveldb-library/db/db_impl.cc:1474-1515` | opening succeeds only into a state that the engine's recovery step allows, and succeeds when no file is missing and nothing fails |
| `BinaryHeap.Heap.Min` | `InstagramFirebaseWork/Pods/Libuv-gRPC/src/heap-inl.h:67-70` | the root is a least member; null exactly when the heap is empty |
| `BinaryHeap.RootIsLeast` | `InstagramFirebaseWork/Pods/Libuv-gRPC/src/heap-inl.h:67-70` | in a heap-ordered array nothing is less than the root |
| `BinaryHeap.PathTo` | `InstagramFirebaseWork/Pods/Libuv-gRPC/src/heap-inl.h:119-124` | the bits computed from the node count are the walk from the root to that node |
| `BinaryHeap.Heap.Walk` | `InstagramFirebaseWork/Pods/Libuv-gRPC/src/heap-inl.h:126-136` | following these bits ends at the node, or at the free place its parent has for it |
| `BinaryHeap.Heap.Swap` | `InstagramFirebaseWork/Pods/Libuv-gRPC/src/heap-inl.h:72-104` | parent and child change places in the tree, with all links of up to six nodes consistent and the root pointer right |
| `BinaryHeap.RewiredIsWired` | `InstagramFirebaseWork/Pods/Libuv-gRPC/src/heap-inl.h:72-104` | the pointer assignments of a swap yield exactly the links of the tree with the two nodes exchanged |
| `BinaryHeap.Heap.Rise` | `InstagramFirebaseWork/Pods/Libuv-gRPC/src/heap-inl.h:143-147` | the walk up terminates, restores the order, and moves the node exactly if it is smaller than its parent |
| `BinaryHeap.Heap.Smallest` | `InstagramFirebaseWork/Pods/Libuv-gRPC/src/heap-inl.h:221-225` | finds the smallest of a node and its children |
| `BinaryHeap.Heap.Sink` | `InstagramFirebaseWork/Pods/Libuv-gRPC/src/heap-inl.h:216-229` | the walk down terminates and moves the node exactly if a child is smaller; after a move it is in order with its new parent |
| `BinaryHeap.RiseStep` | `InstagramFirebaseWork/Pods/Libuv-gRPC/src/heap-inl.h:143-147` | a swap upwards leaves at most one place out of order, further up |
| `BinaryHeap.SinkStep` | `InstagramFirebaseWork/Pods/Libuv-gRPC/src/heap-inl.h:216-229` | a swap downwards leaves at most one place out of order, further down |
| `BinaryHeap.Heap.Insert` | `InstagramFirebaseWork/Pods/Libuv-gRPC/src/heap-inl.h:106-148` | the node joins: a complete tree addressed by the bits of the count, consistent pointers, heap order, and exactly one more member |
| `BinaryHeap.Heap.TakeLast` | `InstagramFirebaseWork/Pods/Libuv-gRPC/src/heap-inl.h:163-185` | the last node of the bottom row leaves the tree |
| `BinaryHeap.Heap.Replace` | `InstagramFirebaseWork/Pods/Libuv-gRPC/src/heap-inl.h:195-214` | the last node takes over place and links of the one that leaves |
| `BinaryHeap.Heap.PutInPlace` | `InstagramFirebaseWork/Pods/Libuv-gRPC/src/heap-inl.h:195-236` | after the replacement and both walks the order holds again; the node sinks exactly if a child is smaller, rises exactly if it is smaller than its parent, never both, and otherwise stays in the place of the one that left |
| `BinaryHeap.Heap.Remove` | `InstagramFirebaseWork/Pods/Libuv-gRPC/src/heap-inl.h:150-237` | any node leaves: shape, pointers, order and member set are right; the last node takes its place, and at most one of the two walks moves anything |
| `BinaryHeap.Heap.Dequeue` | `InstagramFirebaseWork/Pods/Libuv-gRPC/src/heap-inl.h:239-241` | a least member leaves |
| `Timers.LessIsOrder` | `InstagramFirebaseWork/Pods/Libuv-gRPC/src/timer.c:38-55` | comparing deadline and then start number is a strict weak order |
| `Timers.Deadline` | `InstagramFirebaseWork/Pods/Libuv-gRPC/src/timer.c:78-80` | a deadline past the 64-bit range becomes the largest time |
| `Timers.Loop.Start` | `InstagramFirebaseWork/Pods/Libuv-gRPC/src/timer.c:66-95` | a handle without a callback or being closed is refused and unchanged; any other is armed at its deadline with the next start number |
| `Timers.Loop.Stop` | `InstagramFirebaseWork/Pods/Libuv-gRPC/src/timer.c:97-108` | exactly this timer leaves the heap |
| `Timers.Loop.Again` | `InstagramFirebaseWork/Pods/Libuv-gRPC/src/timer.c:110-120` | a repeating handle is armed one interval from now; one without a callback is refused |
| `Timers.Loop.NextTimeout` | `InstagramFirebaseWork/Pods/Libuv-gRPC/src/timer.c:133-151` | zero exactly when a timer is due, minus one exactly when none is armed, and never past the earliest deadline |
| `Timers.Loop.Rearm` | `InstagramFirebaseWork/Pods/Libuv-gRPC/src/timer.c:166-167` | stopping and starting again arms a repeating timer later than now, and drops any other |
| `Timers.Loop.EarliestIsNext` | `InstagramFirebaseWork/Pods/Libuv-gRPC/src/timer.c:158-164` | the root of the heap is the next timer to fire, or no due timer is left |
| `Timers.Loop.RunTimers` | `InstagramFirebaseWork/Pods/Libuv-gRPC/src/timer.c:154-171` | below the 64-bit maximum the pass ends, having fired exactly the timers due at its start, once each, in order of deadline and start; repeating ones are armed later than now |
| `IntrusiveQueue.Init` | `InstagramFirebaseWork/Pods/Libuv-gRPC/src/queue.h:45-50` | a header linked to itself is the empty queue |
| `IntrusiveQueue.IsEmpty` | `InstagramFirebaseWork/Pods/Libuv-gRPC/src/queue.h:39-40` | tells the empty queue |
| `IntrusiveQueue.Head` | `InstagramFirebaseWork/Pods/Libuv-gRPC/src/queue.h:42-43` | the first item, or the header of an empty queue |
| `IntrusiveQueue.InsertTail` | `InstagramFirebaseWork/Pods/Libuv-gRPC/src/queue.h:92-99` | the item is last, all links in both directions consistent |
| `IntrusiveQueue.InsertHead` | `InstagramFirebaseWork/Pods/Libuv-gRPC/src/queue.h:83-90` | the item is first |
| `IntrusiveQueue.Remove` | `InstagramFirebaseWork/Pods/Libuv-gRPC/src/queue.h:101-106` | the item leaves, the others keep their order, and its own links still point at its old neighbours, so it does not look unlinked |
| `IntrusiveQueue.RemoveAgain` | `InstagramFirebaseWork/Pods/Libuv-gRPC/src/queue.h:101-106` | removing it once more changes no link while its old neighbours are still neighbours |
| `IntrusiveQueue.RemoveTooLate` | `InstagramFirebaseWork/Pods/Libuv-gRPC/src/queue.h:101-106` | once a neighbour left too, it brings that neighbour back into the queue |
| `IntrusiveQueue.Split` | `InstagramFirebaseWork/Pods/Libuv-gRPC/src/queue.h:61-70` | the items from a position on go over to another header |
| `IntrusiveQueue.Move` | `InstagramFirebaseWork/Pods/Libuv-gRPC/src/queue.h:72-81` | all items go over to another header |
| `IntrusiveQueue.Add` | `InstagramFirebaseWork/Pods/Libuv-gRPC/src/queue.h:52-59` | one queue follows the other |
| `ThreadPoolProof.PlacesKept` | `InstagramFirebaseWork/Pods/Libuv-gRPC/src/threadpool.c:57-160` | every step of workers, posters, cancellation and loops keeps each request in the one place that is told for it |
| `ThreadPoolProof.PoolKept` | `InstagramFirebaseWork/Pods/Libuv-gRPC/src/threadpool.c:57-160` | every step keeps counters, the slow message and the balance of wake-ups |
| `ThreadPoolProof.RunHolds` | `InstagramFirebaseWork/Pods/Libuv-gRPC/src/threadpool.c:57-160` | both invariants hold in every state of every run, under every interleaving |
| `ThreadPoolProof.ExactlyOnePlace` | `InstagramFirebaseWork/Pods/Libuv-gRPC/src/threadpool.c:57-139` | in every run a submitted request is in exactly one of: main queue, slow queue, a worker, held by cancel, a loop's queue, a loop's local queue, drained; and in no queue twice |
| `ThreadPoolCancel.CallbacksCounted` | `InstagramFirebaseWork/Pods/Libuv-gRPC/src/threadpool.c:269-315` | in every state of every run, a request was called back once for every time it was cancelled while in no queue, and once more if it is drained now |
| `ThreadPoolCancel.CalledBackOnce` | `InstagramFirebaseWork/Pods/Libuv-gRPC/src/threadpool.c:295-315` | the callback runs at most once, if the request is not cancelled after its callback was given ECANCELED |
| `ThreadPoolCancel.CalledBackAgainIff` | `InstagramFirebaseWork/Pods/Libuv-gRPC/src/threadpool.c:269-315` | it runs more than once if and only if the request was cancelled after a callback and was called back since |
| `ThreadPoolCancel.StatusTellsWhetherItRan` | `InstagramFirebaseWork/Pods/Libuv-gRPC/src/threadpool.c:307-314` | every callback is given status 0 exactly if the work ran and ECANCELED exactly if it never did |
| `ThreadPoolCancel.OnlyCancelledAgain` | `InstagramFirebaseWork/Pods/Libuv-gRPC/src/threadpool.c:275-284` | after a callback, cancelling succeeds exactly if ECANCELED was given before; after status 0 it answers EBUSY |
| `ThreadPoolCancel.FirstCancelIsSafe` | `InstagramFirebaseWork/Pods/Libuv-gRPC/src/threadpool.c:275-277` | before the first callback, a request that can be cancelled and is not being cancelled is in one of the queues, so taking it out follows good links |
| `ThreadPoolCancel.LateCancelCallsBack` | `InstagramFirebaseWork/Pods/Libuv-gRPC/src/threadpool.c:269-315` | in any run, whoever cancels a request during the callback that was given ECANCELED is called back again |
| `ThreadPoolCancel.CancelledTwiceCalledTwice` | `InstagramFirebaseWork/Pods/Libuv-gRPC/src/threadpool.c:269-315` | a run of nine steps: one request, cancelled while queued and once more during its callback, is called back twice with ECANCELED |
| `ThreadPoolProof.CancelledUnlessStarted` | `InstagramFirebaseWork/Pods/Libuv-gRPC/src/threadpool.c:269-292` | in every state of every run a request can be cancelled exactly if its work was never started and no worker has it: while it is queued, and also after it was called back with ECANCELED |
| `ThreadPoolProof.NoLostWakeUp` | `InstagramFirebaseWork/Pods/Libuv-gRPC/src/threadpool.c:66-75` | what could run is never more than the workers on their way; slow work running is what its counter says and at most (nthreads + 1) / 2; pending slow work has its message queued exactly once |
| `ThreadPoolProof.NoStuckPool` | `InstagramFirebaseWork/Pods/Libuv-gRPC/src/threadpool.c:66-138` | when all workers sleep and none is woken, both work queues are empty |
| `ThreadPoolOrder.WaitsUntilTaken` | `InstagramFirebaseWork/Pods/Libuv-gRPC/src/threadpool.c:142-160` | a posted request that is not cancelled waits in the queue for its kind exactly until a worker takes it |
| `ThreadPoolOrder.FirstComeFirstServed` | `InstagramFirebaseWork/Pods/Libuv-gRPC/src/threadpool.c:77-160` | in every run, of two requests posted one after the other, both slow or both not, and not cancelled, no worker has the second before one had the first |
| `ThreadPoolOrder.CalledBackInOrder` | `InstagramFirebaseWork/Pods/Libuv-gRPC/src/threadpool.c:287-314` | in every run, of two requests of a loop the one that waits for its callback when the other arrives is called back first, unless one of them is cancelled |
| `ThreadPoolImpl.Pool.Post` | `InstagramFirebaseWork/Pods/Libuv-gRPC/src/threadpool.c:142-160` | refines the posting step, for slow and for other work |
| `ThreadPoolImpl.Pool.Signal` | `InstagramFirebaseWork/Pods/Libuv-gRPC/src/threadpool.c:157-158` | refines waking one idle worker |
| `ThreadPoolImpl.Pool.TakeTurn` | `InstagramFirebaseWork/Pods/Libuv-gRPC/src/threadpool.c:68-118` | refines one turn of the worker loop: wait, take a request, or put the slow message aside |
| `ThreadPoolImpl.StaysLooping` | `InstagramFirebaseWork/Pods/Libuv-gRPC/src/threadpool.c:90-101` | a turn that keeps the mutex shortens the queue or brings another entry to its front, so the loop ends |
| `ThreadPoolImpl.Pool.NextRequest` | `InstagramFirebaseWork/Pods/Libuv-gRPC/src/threadpool.c:65-118` | the worker waits or comes away with a request, after as many turns as it takes |
| `ThreadPoolImpl.DispatchedHolds` | `InstagramFirebaseWork/Pods/Libuv-gRPC/src/threadpool.c:65-118` | these turns keep both invariants |
| `ThreadPoolImpl.Pool.Reacquire` | `InstagramFirebaseWork/Pods/Libuv-gRPC/src/threadpool.c:131-138` | refines getting the mutex back: the counters of idle workers and of slow work go down |
| `ThreadPoolImpl.Pool.HandOver` | `InstagramFirebaseWork/Pods/Libuv-gRPC/src/threadpool.c:124-129` | refines handing finished work to its loop |
| `ThreadPoolImpl.Pool.Cancel` | `InstagramFirebaseWork/Pods/Libuv-gRPC/src/threadpool.c:269-285` | under both mutexes: EBUSY exactly when the links are cleared or the work field is, and then nothing changes; otherwise 0, and with links that lead to neighbours, refines the step that takes the request out of its queue |
| `ThreadPoolImpl.Pool.FinishCancel` | `InstagramFirebaseWork/Pods/Libuv-gRPC/src/threadpool.c:286-292` | refines handing a cancelled request to its loop |
| `ThreadPoolImpl.Pool.TakeFinished` | `InstagramFirebaseWork/Pods/Libuv-gRPC/src/threadpool.c:302-305` | refines taking over all finished work |
| `ThreadPoolImpl.Pool.CallBackNext` | `InstagramFirebaseWork/Pods/Libuv-gRPC/src/threadpool.c:307-314` | refines the next callback, with the status its work field tells |
| `Punycode.ReadDigits` | `InstagramFirebaseWork/Pods/Libuv-gRPC/src/idna.c:192-218` | the decoder of RFC 3492 reads back the digits of any delta at any bias, whatever follows |
| `Punycode.DecodesEmitted` | `InstagramFirebaseWork/Pods/Libuv-gRPC/src/idna.c:166-243` | the decoder of section 6.2 of RFC 3492 reads a whole run of deltas, with its bias in step after each |
| `Punycode.DecodesExtended` | `InstagramFirebaseWork/Pods/Libuv-gRPC/src/idna.c:140-246` | ASCII part, delimiter and deltas decode to what inserting the deltas yields |
| `Punycode.AdaptMeetsSection61` | `InstagramFirebaseWork/Pods/Libuv-gRPC/src/idna.c:220-236` | the adapted bias is the one of section 6.1 of RFC 3492: damping by 700 or 2, the share of the points, how often 35 divides, and the remainder term |
| `IdnaLabel.TakenNext` | `InstagramFirebaseWork/Pods/Libuv-gRPC/src/idna.c:183-190` | taking a code point at its turn inserts it exactly where the decoder inserts it |
| `IdnaLabel.StepOver` | `InstagramFirebaseWork/Pods/Libuv-gRPC/src/idna.c:184-190` | passing over a code point keeps encoder and decoder in step |
| `IdnaLabel.StepIn` | `InstagramFirebaseWork/Pods/Libuv-gRPC/src/idna.c:189-239` | writing a code point keeps delta, count and bias of the encoder in step with the decoder's state |
| `IdnaLabel.NextPass` | `InstagramFirebaseWork/Pods/Libuv-gRPC/src/idna.c:241-243` | so does the end of a pass |
| `IdnaLabel.Jump` | `InstagramFirebaseWork/Pods/Libuv-gRPC/src/idna.c:166-181` | so does the jump to the next code point, past all that do not occur |
| `IdnaLabel.DeltaBound` | `InstagramFirebaseWork/Pods/Libuv-gRPC/src/idna.c:174-188` | delta stays below 0x110000 times the length plus one, so short labels never overflow |
| `Idna.WriteInteger` | `InstagramFirebaseWork/Pods/Libuv-gRPC/src/idna.c:192-218` | the division loop writes exactly the generalized variable-length integer of section 3.3 of RFC 3492 |
| `Idna.AdaptBias` | `InstagramFirebaseWork/Pods/Libuv-gRPC/src/idna.c:220-236` | the loop computes the bias that section 6.1 of RFC 3492 asks for, and the decoder uses, without overflow |
| `Idna.CountPoints` | `InstagramFirebaseWork/Pods/Libuv-gRPC/src/idna.c:120-131` | counts ASCII and other code points |
| `Idna.WriteBasic` | `InstagramFirebaseWork/Pods/Libuv-gRPC/src/idna.c:140-151` | writes exactly the ASCII code points in order, stopping after the last |
| `Idna.NextPoint` | `InstagramFirebaseWork/Pods/Libuv-gRPC/src/idna.c:166-172` | the smallest code point not yet written |
| `Idna.WritePass` | `InstagramFirebaseWork/Pods/Libuv-gRPC/src/idna.c:183-239` | one pass writes the deltas of every occurrence of a code point, or overflows exactly when counting does |
| `Idna.JumpTo` | `InstagramFirebaseWork/Pods/Libuv-gRPC/src/idna.c:166-181` | jumps to the next code point, or fails exactly when delta would not fit in 32 bits |
| `Idna.RoundStands` | `InstagramFirebaseWork/Pods/Libuv-gRPC/src/idna.c:166-243` | after a round the text written stands for the deltas, and fewer code points are left |
| `IdnaFits.SpelledOnce` | `InstagramFirebaseWork/Pods/Libuv-gRPC/src/idna.c:169-243` | no two sequences of deltas spell the same label: Punycode is unique |
| `IdnaFits.TooFar` | `InstagramFirebaseWork/Pods/Libuv-gRPC/src/idna.c:177-191` | a count beyond 32 bits with a code point still to come means that a delta of the label does not fit in 32 bits |
| `IdnaFits.ShortFits` | `InstagramFirebaseWork/Pods/Libuv-gRPC/src/idna.c:177-191` | all deltas of a label of fewer than 3854 code points fit in 32 bits |
| `Idna.PassOverflows` | `InstagramFirebaseWork/Pods/Libuv-gRPC/src/idna.c:189-191` | overflow while counting in a pass means that a delta of the label does not fit |
| `Idna.WrittenOnce` | `InstagramFirebaseWork/Pods/Libuv-gRPC/src/idna.c:102-246` | there is only one form that can be written for a label |
| `IdnaSamples.ExampleIsWritten` | `InstagramFirebaseWork/Pods/Libuv-gRPC/src/idna.c:102-246` | what is written for U+4F8B U+3048 is xn--r8jz45g |
| `IdnaSamples.BooksIsWritten` | `InstagramFirebaseWork/Pods/Libuv-gRPC/src/idna.c:102-246` | for b, U+00FC and cher it is xn--bcher-kva |
| `IdnaSamples.NihongoIsWritten` | `InstagramFirebaseWork/Pods/Libuv-gRPC/src/idna.c:102-246` | for U+65E5 U+672C U+8A9E, with a bias that 35 divides before it is used, it is xn--wgv71a119e |
| `IdnaSamples.UmlautIsWritten` | `InstagramFirebaseWork/Pods/Libuv-gRPC/src/idna.c:102-246` | for U+00FC U+4F8B U+3048, where 35 divides twice, it is xn--tda033v7ut |
| `Idna.ToAsciiLabel` | `InstagramFirebaseWork/Pods/Libuv-gRPC/src/idna.c:102-246` | a label is encoded if and only if all of its deltas fit in 32 bits, and otherwise UV_E2BIG is returned; what is written is the prefix, the ASCII code points, a delimiter if there are any, and the one sequence of deltas that spells the label, and decodes to exactly its code points; an ASCII label stays as it is; the result looks like an error exactly when deltas do not fit or an ASCII label has 2^31 code points or more |
| `Idna.SameFormMeans` | `InstagramFirebaseWork/Pods/Libuv-gRPC/src/idna.c:133-158` | two labels with the same form are equal, or exactly one of them is ASCII and starts with the prefix of converted labels while the other is not ASCII |
| `Idna.SharesForm` | `InstagramFirebaseWork/Pods/Libuv-gRPC/src/idna.c:133-158` | an ASCII label has the form of one that is not ASCII if and only if it starts with that prefix and the rest decodes to that label |
| `Idna.TwoLabelsOneForm` | `InstagramFirebaseWork/Pods/Libuv-gRPC/src/idna.c:133-158` | xn--tda and the label of the one code point U+00FC have the same form |
| `Utf8.ReadsEncoded` | `InstagramFirebaseWork/Pods/Libuv-gRPC/src/idna.c:24-97` | every scalar value is read back from its encoding (section 3 of RFC 3629), which is consumed whole, whatever follows |
| `Utf8.ScalarsAre` | `InstagramFirebaseWork/Pods/Libuv-gRPC/src/idna.c:77-85` | scalar values are those up to 10FFFF that are no surrogates |
| `Utf8.EncodeExamples` | `InstagramFirebaseWork/Pods/Libuv-gRPC/src/idna.c:24-97` | the encoding agrees with the examples of section 7 of RFC 3629 |
| `Utf8.AcceptsEncoded` | `InstagramFirebaseWork/Pods/Libuv-gRPC/src/idna.c:68-85` | what is accepted is the encoding of the result if and only if the trailing bytes are continuation bytes |
| `Utf8.AcceptsMalformed` | `InstagramFirebaseWork/Pods/Libuv-gRPC/src/idna.c:68-69` | folding three checks into one exclusive or accepts E1 C0 C0, which is not UTF-8 |
| `Utf8.RefusesOthers` | `InstagramFirebaseWork/Pods/Libuv-gRPC/src/idna.c:24-86` | what is refused is no encoding of any scalar value |
| `Utf8.Gather` | `InstagramFirebaseWork/Pods/Libuv-gRPC/src/idna.c:33-67` | the switch takes the bytes that the lead byte asks for; one step past the end it takes one |
| `Utf8.DecodeSlow` | `InstagramFirebaseWork/Pods/Libuv-gRPC/src/idna.c:24-86` | returns the value of the sequence or an error, for every lead byte and every bytes after it |
| `Utf8.Decode1` | `InstagramFirebaseWork/Pods/Libuv-gRPC/src/idna.c:88-97` | one code point or an error, consuming as many bytes as the lead byte announces, or at the end of the text at most two |
| `Utf8.ForEach` | `InstagramFirebaseWork/Pods/Libuv-gRPC/src/idna.c:99-100` | over any bytes, the loop visits exactly the sequences that end within the text, and is told of the first one that is refused |
| `Utf8.VisitsText` | `InstagramFirebaseWork/Pods/Libuv-gRPC/src/idna.c:99-100` | a well-formed text is accepted, and exactly its code points are visited |
| `Utf8.AcceptedIsEncoded` | `InstagramFirebaseWork/Pods/Libuv-gRPC/src/idna.c:24-100` | an accepted text is the encoding of what was visited if and only if the end cuts no sequence off and all trailing bytes are continuation bytes |
| `Utf8.DropsCutOff` | `InstagramFirebaseWork/Pods/Libuv-gRPC/src/idna.c:99-100` | any well-formed text followed by a sequence that the end cuts off is accepted as the text without that sequence |
| `Hostname.LabelsJoin` | `InstagramFirebaseWork/Pods/Libuv-gRPC/src/idna.c:259-278` | the labels are the name cut at its four kinds of separators |
| `Hostname.CutAtDots` | `InstagramFirebaseWork/Pods/Libuv-gRPC/src/idna.c:264-271` | a name is cut at U+002E, U+3002, U+FF0E and U+FF61, and at no other code point |
| `Hostname.FormHasNoStop` | `InstagramFirebaseWork/Pods/Libuv-gRPC/src/idna.c:102-246` | the form of a label without separators has no full stop, since the decoder accepts none |
| `Hostname.NameReadsBack` | `InstagramFirebaseWork/Pods/Libuv-gRPC/src/idna.c:250-291` | the forms can be cut out of the converted name again, so each label can be decoded |
| `Hostname.WriteLabel` | `InstagramFirebaseWork/Pods/Libuv-gRPC/src/idna.c:123-158` | one part of a name: fails exactly when a sequence is refused, deltas do not fit, or the count of an ASCII part overflows an int, with the error of that case; otherwise its form goes to the output |
| `Hostname.ToAscii` | `InstagramFirebaseWork/Pods/Libuv-gRPC/src/idna.c:250-291` | for any bytes: fails exactly when converting one of the parts does, with the error of the first; otherwise the output is the forms of the parts with a full stop between each two and a NUL, and the result is the number of bytes written |
| `Hostname.CutsAreLabels` | `InstagramFirebaseWork/Pods/Libuv-gRPC/src/idna.c:259-284` | the parts of a well-formed name are its labels |
| `Hostname.WellFormedIsConverted` | `InstagramFirebaseWork/Pods/Libuv-gRPC/src/idna.c:250-291` | a well-formed name is converted if all deltas of its labels fit in 32 bits and the counts of its ASCII labels in an int |
| `Inet4.ParsesExactlyPrinted` | `InstagramFirebaseWork/Pods/Libuv-gRPC/src/inet.c:179-215` | the IPv4 parser accepts exactly the canonical dotted texts, each as the address it is printed from |
| `Inet4.DottedExample` | `InstagramFirebaseWork/Pods/Libuv-gRPC/src/inet.c:53-64` | 192.0.2.1 is printed and read as these four octets |
| `Inet4.PToN4` | `InstagramFirebaseWork/Pods/Libuv-gRPC/src/inet.c:179-215` | the loop over the text computes that parser, and touches the destination only on success |
| `Inet4.NToP4` | `InstagramFirebaseWork/Pods/Libuv-gRPC/src/inet.c:53-64` | writes the dotted text exactly when it fits with its NUL, and leaves the buffer alone otherwise |
| `Inet4.CopyString` | `InstagramFirebaseWork/Pods/Libuv-gRPC/src/strscpy.c:4-16` | copies what fits and always terminates it; an empty buffer is left alone without an error |
| `Inet6.FormParses` | `InstagramFirebaseWork/Pods/Libuv-gRPC/src/inet.c:218-302` | every text form of section 2.2 of RFC 4291 is read as the address it stands for |
| `Inet6.ParsesExactly` | `InstagramFirebaseWork/Pods/Libuv-gRPC/src/inet.c:218-302` | the IPv6 parser accepts exactly the text forms of section 2.2 of RFC 4291: groups of one to four digits in either case, at most one double colon for at least one group, an optional IPv4 tail |
| `Inet6.TextExample` | `InstagramFirebaseWork/Pods/Libuv-gRPC/src/inet.c:218-302` | 2001:0DB8::00c1 is read as its address |
| `Inet.ScanText` | `InstagramFirebaseWork/Pods/Libuv-gRPC/src/inet.c:226-281` | the scanning loop finds bytes and place of the double colon as the parser function does |
| `Inet.Spread` | `InstagramFirebaseWork/Pods/Libuv-gRPC/src/inet.c:282-297` | the in-place shift moves what follows the double colon to the end and fills the gap with zeros |
| `Inet.PToN6` | `InstagramFirebaseWork/Pods/Libuv-gRPC/src/inet.c:218-302` | succeeds if and only if the text denotes an address, stores that address, and leaves the destination alone otherwise |
| `Inet.TextsAreShort` | `InstagramFirebaseWork/Pods/Libuv-gRPC/src/inet.c:163-166` | no text of an address is longer than 45 characters, so the bound before a zone refuses none |
| `Inet.PToN` | `InstagramFirebaseWork/Pods/Libuv-gRPC/src/inet.c:150-176` | dispatch by family: exactly the texts of addresses are accepted, with the zone of an IPv6 address dropped, and the destination changes on success only |
| `InetPrinter.FindRun` | `InstagramFirebaseWork/Pods/Libuv-gRPC/src/inet.c:88-111` | finds the leftmost of the longest runs of zero words, if it has at least two |
| `InetPrinter.BestIsUnique` | `InstagramFirebaseWork/Pods/Libuv-gRPC/src/inet.c:88-111` | that run is unique |
| `InetPrinter.WordsOf` | `InstagramFirebaseWork/Pods/Libuv-gRPC/src/inet.c:85-87` | the words hold the bytes in network order |
| `InetPrinter.FormReadsBack` | `InstagramFirebaseWork/Pods/Libuv-gRPC/src/inet.c:113-146` | what is printed for any run of zeros is read back as the same address |
| `InetPrinter.FormIsText` | `InstagramFirebaseWork/Pods/Libuv-gRPC/src/inet.c:113-146` | what is printed, in terms of the address: :: or ::ffff: and a dotted quad for exactly the IPv4-compatible and the IPv4-mapped addresses; otherwise all groups, or those before and after the chosen run with a double colon between them |
| `InetPrinter.QuadIsFor` | `InstagramFirebaseWork/Pods/Libuv-gRPC/src/inet.c:129-131` | the test on the run holds exactly for addresses of twelve zero bytes and then not two more, and of ten zero bytes and then FF FF |
| `InetPrinter.TextIsCanonical` | `InstagramFirebaseWork/Pods/Libuv-gRPC/src/inet.c:113-146` | the text holds lower-case digits, colons and full stops only, and no group of several digits starts with 0 |
| `InetPrinter.StopsAreFor` | `InstagramFirebaseWork/Pods/Libuv-gRPC/src/inet.c:129-137` | the text has a dotted quad exactly for these two kinds of addresses |
| `InetPrinter.PrintWords` | `InstagramFirebaseWork/Pods/Libuv-gRPC/src/inet.c:113-142` | the loop prints the text form of the chosen run; the test for a run of seven words never holds |
| `InetPrinter.NToP6` | `InstagramFirebaseWork/Pods/Libuv-gRPC/src/inet.c:67-147` | for every 16-byte address: the text is the canonical one of sections 4 and 5 of RFC 5952, spelled out group by group with the leftmost longest run compressed, fits in 46 characters, and is parsed back to the same bytes; success exactly when the buffer can hold it |
| `PbVarint.Reads64` | `InstagramFirebaseWork/Pods/nanopb/pb_decode.c:255-275` | every 64-bit integer is read back from its variable-length encoding |
| `PbVarint.Reads64Exactly` | `InstagramFirebaseWork/Pods/nanopb/pb_decode.c:255-275` | for every encoding, padded or not: at most ten bytes are read as the lowest 64 bits of the number, more are refused |
| `PbVarint.ReadsBackIff64` | `InstagramFirebaseWork/Pods/nanopb/pb_decode.c:255-275` | an encoding, however padded, is read as its number by the 64-bit reader if and only if it has at most ten bytes and the number has 64 bits |
| `PbVarint.Read64Truncates` | `InstagramFirebaseWork/Pods/nanopb/pb_decode.c:255-275` | 2^64, in ten bytes, is read as 0 |
| `PbVarint.Reads32` | `InstagramFirebaseWork/Pods/nanopb/pb_decode.c:187-247` | every 32-bit integer is read back by the 32-bit reader |
| `PbVarint.Reads32Exactly` | `InstagramFirebaseWork/Pods/nanopb/pb_decode.c:187-247` | for every encoding of at most 37 bytes, padded or not, exactly whether the 32-bit reader accepts it, and that it then returns the lowest 32 bits |
| `PbVarint.ReadsBackIff32` | `InstagramFirebaseWork/Pods/nanopb/pb_decode.c:187-247` | an encoding of any length, however padded, is read as its number if and only if the number has 32 bits |
| `PbVarint.Reads32Canonical` | `InstagramFirebaseWork/Pods/nanopb/pb_decode.c:187-247` | of the shortest encodings of 64-bit numbers, the 32-bit reader accepts exactly those below 2^32 and those with bits 31 and 63 set and all ones or all zeros in each of the bytes 5 to 8, and returns the lowest 32 bits |
| `PbVarint.ReadsNegative32` | `InstagramFirebaseWork/Pods/nanopb/pb_decode.c:218-226` | a negative 32-bit number extended to 64 bits is read as its low half, as intended |
| `PbVarint.Terminated` | `InstagramFirebaseWork/Pods/nanopb/pb_decode.c:187-247` | input with a last byte is an encoding and what follows it, so the exact statements cover it |
| `PbVarint.CutOff` | `InstagramFirebaseWork/Pods/nanopb/pb_decode.c:187-275` | input without a last byte is refused by both readers |
| `PbVarint.Read32Truncates` | `InstagramFirebaseWork/Pods/nanopb/pb_decode.c:218-226` | a number that is no sign extension, FFFFFFF8 80000000, is read as 80000000 |
| `PbVarint.Read32Unpads` | `InstagramFirebaseWork/Pods/nanopb/pb_decode.c:221-242` | 7 * 2^32 is refused in five bytes but read as 0 in six |
| `PbVarint.Read32Wraps` | `InstagramFirebaseWork/Pods/nanopb/pb_decode.c:213-235` | a number of 260 bits in 38 bytes is read as 8, since the bit position has wrapped around to 3 |
| `PbWire.ZigZagBack` | `InstagramFirebaseWork/Pods/nanopb/pb_encode.c:630-639` | zigzag encoding of every 64-bit integer is undone by the decoder's formula, and fits 64 bits |
| `PbField.LeadsToMembers` | `InstagramFirebaseWork/Pods/nanopb/pb_common.c:49-83` | adding up the relative offsets leads to every member of the struct and to its size, through arrays, pointers and unions |
| `PbField.MembersAreApart` | `InstagramFirebaseWork/Pods/nanopb/pb_common.c:53-59` | only members of one union share their place |
| `PbField.FieldIter.Begin` | `InstagramFirebaseWork/Pods/nanopb/pb_common.c:8-27` | at the first field; false exactly for an empty list |
| `PbField.FieldIter.Next` | `InstagramFirebaseWork/Pods/nanopb/pb_common.c:29-85` | one field on, with the right offsets and required index, or back to the first from the last |
| `PbField.FieldIter.Find` | `InstagramFirebaseWork/Pods/nanopb/pb_common.c:87-104` | from any position: terminates, finds a field exactly if the tag is in the list, with correct offsets and required index after wrapping, and stays put otherwise |
| `PbEncode.OStream.Write` | `InstagramFirebaseWork/Pods/nanopb/pb_encode.c:103-124` | writes all or nothing: fails exactly when the bytes do not fit; a sizing stream only counts |
| `PbEncode.EncodeVarint` | `InstagramFirebaseWork/Pods/nanopb/pb_encode.c:608-628` | the loop writes exactly the variable-length encoding, within ten bytes |
| `PbEncode.EncodeSvarint` | `InstagramFirebaseWork/Pods/nanopb/pb_encode.c:630-639` | the two's complement formula is zigzag encoding |
| `PbEncode.EncodeFixed64` | `InstagramFirebaseWork/Pods/nanopb/pb_encode.c:653-666` | the eight bytes are the little-endian encoding |
| `PbEncode.StringSize` | `InstagramFirebaseWork/Pods/nanopb/pb_encode.c:873-897` | the loop finds the string before the first NUL or the end of the buffer |
| `PbEncode.EncodeArray` | `InstagramFirebaseWork/Pods/nanopb/pb_encode.c:147-236` | writes a packed or keyed array, refusing one above its declared size |
| `PbEncode.PackedSize` | `InstagramFirebaseWork/Pods/nanopb/pb_encode.c:169-189` | the size computed for a packed array is what the elements take |
| `PbEncode.EncodeSubmessage` | `InstagramFirebaseWork/Pods/nanopb/pb_encode.c:717-765` | both passes agree at every nesting depth: the size written first is the size written after it |
| `PbEncode.EncodeSized` | `InstagramFirebaseWork/Pods/nanopb/pb_encode.c:737-764` | the second pass never finds the size changed |
| `PbEncode.CheckDefaultMessage` | `InstagramFirebaseWork/Pods/nanopb/pb_encode.c:240-337` | decides whether a submessage has only default values |
| `PbEncode.EncodeBasicField` | `InstagramFirebaseWork/Pods/nanopb/pb_encode.c:341-426` | writes a field's values exactly when they are present: required, flagged, non-default, counted, or chosen in a union |
| `PbEncode.Encode` | `InstagramFirebaseWork/Pods/nanopb/pb_encode.c:528-550` | writes exactly the encoding of the message, or fails: when it has none, or into a buffer exactly when it does not fit |
| `PbEncode.GetEncodedSize` | `InstagramFirebaseWork/Pods/nanopb/pb_encode.c:567-576` | succeeds exactly when the message has an encoding, with its size |
| `PbEncode.EncodeToBuffer` | `InstagramFirebaseWork/Pods/nanopb/pb_encode.c:86-124` | encoding to a buffer succeeds exactly when the computed size fits, and then fills exactly that size |
| `PbBounds.SameDefaults` | `InstagramFirebaseWork/Pods/nanopb/pb_encode.c:240-337` | messages with the same present values are alike in being default |
| `PbBounds.SameIsUnflagged` | `InstagramFirebaseWork/Pods/nanopb/pb_encode.c:240-337` | messages with the same present values hold the same in every field without a has flag, through all submessages, also where nothing was sent |
| `PbBounds.Clears` | `InstagramFirebaseWork/Pods/nanopb/pb_decode.c:845-928` | whatever was in a struct, setting it to defaults clears it, through all submessages |
| `PbBounds.OthersUntouched` | `InstagramFirebaseWork/Pods/nanopb/pb_decode.c:406-483` | changing one field leaves count and values of all others alone, unless they share its union |
| `PbDecode.DecodeMore32` | `InstagramFirebaseWork/Pods/nanopb/pb_decode.c:205-247` | the loop computes the 32-bit reader, with sign extension, overflow checks and the bit position that wraps around at 256 |
| `PbDecode.DecodeVarint64` | `InstagramFirebaseWork/Pods/nanopb/pb_decode.c:255-275` | the loop computes the 64-bit reader |
| `PbDecode.MakeSubstream` | `InstagramFirebaseWork/Pods/nanopb/pb_decode.c:372-385` | the substream holds exactly the bytes the length announces, or the parent is too short |
| `PbDecode.CloseSubstream` | `InstagramFirebaseWork/Pods/nanopb/pb_decode.c:387-400` | the stream goes on after the substream, read or not |
| `PbDecode.SkipField` | `InstagramFirebaseWork/Pods/nanopb/pb_decode.c:321-331` | skips one value of any wire type |
| `PbDecode.Clamp` | `InstagramFirebaseWork/Pods/nanopb/pb_decode.c:1359-1377` | accepts a number exactly when the member can store it |
| `PbDecode.DecodeRaw` | `InstagramFirebaseWork/Pods/nanopb/pb_decode.c:1447-1570` | bytes, strings and fixed-length bytes are stored exactly when they fit their member |
| `PbDecode.SetToDefaults` | `InstagramFirebaseWork/Pods/nanopb/pb_decode.c:845-928` | computes the defaults of all fields, leaving the contents of arrays and unions |
| `PbDecode.DecodePackedFrom` | `InstagramFirebaseWork/Pods/nanopb/pb_decode.c:425-453` | takes as many elements as there are bytes for, and fails if there is no room for all |
| `PbDecode.DecodeSubmessage` | `InstagramFirebaseWork/Pods/nanopb/pb_decode.c:1525-1547` | array elements start from defaults, other submessages go on from what they are; the substream is closed in any case |
| `PbDecode.PrepareUnion` | `InstagramFirebaseWork/Pods/nanopb/pb_decode.c:466-476` | a union that turns to a submessage is zeroed and set to defaults first |
| `PbDecode.DecodeStaticField` | `InstagramFirebaseWork/Pods/nanopb/pb_decode.c:406-483` | one occurrence of a field updates exactly its members |
| `PbDecode.DecodeTag` | `InstagramFirebaseWork/Pods/nanopb/pb_decode.c:298-319` | tells the end of the stream, a key of zero and a cut-off key apart |
| `PbDecode.MarkTracks` | `InstagramFirebaseWork/Pods/nanopb/pb_decode.c:1021-1026` | setting the bit of a field's required index keeps the two words in line with the fields seen |
| `PbDecode.AllBitsAreRequired` | `InstagramFirebaseWork/Pods/nanopb/pb_decode.c:1039-1078` | the bits below the number of required fields are set exactly when all tracked ones were seen |
| `PbDecode.CheckBits` | `InstagramFirebaseWork/Pods/nanopb/pb_decode.c:1062-1077` | comparing whole words and the remaining bits decides exactly that |
| `PbDecode.CountRequired` | `InstagramFirebaseWork/Pods/nanopb/pb_decode.c:1045-1058` | running the iterator to the end counts the required fields from any position |
| `PbDecode.DecodeNoInitFrom` | `InstagramFirebaseWork/Pods/nanopb/pb_decode.c:934-1082` | decodes fields in any order and succeeds only if all tracked required fields occurred |
| `PbDecode.Decode` | `InstagramFirebaseWork/Pods/nanopb/pb_decode.c:1084-1096` | defaults first, then the fields |
| `PbRoundTrip.NumberBack` | `InstagramFirebaseWork/Pods/nanopb/pb_decode.c:1334-1445` | every number within its type is read back from what is written for it, for all six packable types |
| `PbRoundTrip.RawBack` | `InstagramFirebaseWork/Pods/nanopb/pb_decode.c:1447-1570` | every string and byte string within its bounds is read back |
| `PbRoundTrip.PackedBack` | `InstagramFirebaseWork/Pods/nanopb/pb_decode.c:425-453` | a packed array is read back element by element |
| `PbRoundTrip.FieldsBack` | `InstagramFirebaseWork/Pods/nanopb/pb_encode.c:528-550` | decoding follows encoding field by field: each restored once its bytes are read, the others still as defaults left them |
| `PbRoundTrip.MessageBack` | `InstagramFirebaseWork/Pods/nanopb/pb_decode.c:934-1082` | a message is restored into any cleared struct, consuming all bytes |
| `PbRoundTrip.RoundTrip` | `InstagramFirebaseWork/Pods/nanopb/pb_encode.c:528-550` | every message within its declared bounds has an encoding, and decoding it into any struct consumes all bytes and restores every present field, through packed arrays, unions and nested submessages; a field without a has flag holds the very value it had, sent or not, and any other optional field that is absent holds its declared default |
| `PbProperties.AcceptsIfRequiredOccur` | `InstagramFirebaseWork/Pods/nanopb/pb_decode.c:952-1081` | decodable input is accepted if and only if every tracked required field occurs in it, in whatever order and among whatever unknown fields |
| `PbRequired.FewRequiredAllOccur` | `InstagramFirebaseWork/Pods/nanopb/pb_decode.c:952-1081` | with at most 64 required fields, decodable input is accepted if and only if all of them occur in it |
| `PbRequired.InsistsOnAllIff` | `InstagramFirebaseWork/Pods/nanopb/pb_decode.c:1039-1081` | all accepted input holds all required fields if and only if the message type has at most 64 of them |
| `PbRequired.SixtyFourOfSixtyFive` | `InstagramFirebaseWork/Pods/nanopb/pb_decode.c:1021-1060` | an input with the first 64 of 65 required booleans is accepted |
| `PbProperties.UnknownIsSkipped` | `InstagramFirebaseWork/Pods/nanopb/pb_decode.c:966-995` | a field that is not in the list changes nothing, also with tag 0, unless the list is empty and the tag is 0 |
| `PbProperties.TerminatorIsBool` | `InstagramFirebaseWork/Pods/nanopb/pb_common.c:44-50` | an empty list reads what follows a key with tag 0 as a boolean at the start of the struct, whatever the wire type |
| `PbProperties.EmptyListIsWrittenTo` | `InstagramFirebaseWork/Pods/nanopb/pb_common.c:85-98` | two such inputs, one of which could have been skipped |
| `PbProperties.SkippedUnlessTerminator` | `InstagramFirebaseWork/Pods/nanopb/pb_decode.c:966-995` | a field whose tag is not in the list leaves every struct alone if and only if it does not carry the tag of an empty list's terminator |
| `PbProperties.EncodedIsSkipped` | `InstagramFirebaseWork/Pods/nanopb/pb_decode.c:321-331` | whatever the encoder wrote for a field can be skipped by a decoder that does not know it |
| `PbProperties.StringBack` | `InstagramFirebaseWork/Pods/nanopb/pb_decode.c:1487-1523` | a string is read back if and only if its buffer holds a NUL: one that fills its buffer is written but refused by the decoder |
| `PbProperties.NothingIsWritten` | `InstagramFirebaseWork/Pods/nanopb/pb_encode.c:240-426` | nothing is written for a field if and only if it is an array of length 0, a member that its union does not hold, has a cleared has flag, or has no flag and is the number 0, no bytes, the empty string, or a submessage for which nothing is written |
| `PbProperties.DefaultIsEmpty` | `InstagramFirebaseWork/Pods/nanopb/pb_encode.c:297-316` | a submessage counts as default if and only if its encoding is empty |
| `PbProperties.FiveIsSent` | `InstagramFirebaseWork/Pods/nanopb/pb_encode.c:318-335` | 5 in a field with tag 1 and no has flag is sent as 08 05 |
| `PbProperties.KeysAre` | `InstagramFirebaseWork/Pods/nanopb/pb_encode.c:669-707` | the wire type of each kind of field, and the keys of some tags |
| `PbProperties.NumbersAre` | `InstagramFirebaseWork/Pods/nanopb/pb_encode.c:608-639` | 150 takes the two bytes 96 01, and -1 and 1 in zigzag encoding are 01 and 02 |
| `PbProperties.OthersAre` | `InstagramFirebaseWork/Pods/nanopb/pb_encode.c:641-715` | fixed-width integers have the lowest byte first, strings their length |
| `PbProperties.PackedIs` | `InstagramFirebaseWork/Pods/nanopb/pb_encode.c:147-199` | a packed array is a key, a length and the elements |
| `PbProperties.SkipsExactly` | `InstagramFirebaseWork/Pods/nanopb/pb_decode.c:321-331` | exactly one value is skipped for wire types 0, 1, 2 and 5, and the others are refused |
| `PbProperties.LastOneStays` | `InstagramFirebaseWork/Pods/nanopb/pb_decode.c:406-483` | when a number occurs twice, or two members of a union do, the last value stays and the union holds its member |
| `PbLimits.StoredIfItFits` | `InstagramFirebaseWork/Pods/nanopb/pb_decode.c:1334-1445` | for every encoding: a number is stored if and only if it has at most ten bytes and the member can hold it, unsigned, signed or zigzag, in one to eight bytes |
| `PbLimits.BytesIfTheyFit` | `InstagramFirebaseWork/Pods/nanopb/pb_decode.c:1447-1570` | strings, bytes and bytes of a fixed length are stored if and only if there is room for them |
| `PbLimits.ElementIfThereIsRoom` | `InstagramFirebaseWork/Pods/nanopb/pb_decode.c:455-464` | an element is added to an array only if there is room, and then the array is one longer |
| `PbLimits.PackedIfThereIsRoom` | `InstagramFirebaseWork/Pods/nanopb/pb_decode.c:425-453` | a packed array is accepted only if there is room for all of its elements |
| `PbLimits.RefusesLongArrays` | `InstagramFirebaseWork/Pods/nanopb/pb_encode.c:147-165` | the encoder refuses arrays longer than their members |
| `PbLimits.RefusesValues` | `InstagramFirebaseWork/Pods/nanopb/pb_encode.c:776-871` | the encoder refuses exactly byte strings that do not fit their members and integers of odd sizes |

## Left out

LevelDB:

- Version sets, memtables, table files, log framing, batch encoding and the environment are contracts: a manifest commit is atomic or of unknown outcome, picked inputs are complete for their user keys, a log append happens or not, inserting a batch is done entry by entry.
- Trivial moves, manual compaction, seek statistics beyond asking for a compaction, and the choice of what to compact.
- The manifest's previous log number, which current versions always write as zero.
- LogRecovery.OpeningDB.RecoverLogFile: corrupted or truncated log records; a log reader yields the records that were appended. Nor is the loss of unsynced data when the machine fails modelled: crashes are crashes of the process.
- LogRecovery.OpeningDB.Open: creating a database and its lock; collecting garbage and scheduling afterwards are part of the engine's step for opening, not of this method.
- File deletions that fail, info logs, properties, statistics and read sampling.
- CompactionOutputs.CompactionState.DecideDrop: every stored key parses. Before an entry whose key does not, the loop forgets the history of the current key.
- CompactionOutputs.CompactionState.ProcessEntry: the memtable flush in the middle of the loop is a step of the engine; it does not touch what the loop works on.
- CompactionOutputs.CompactionState.DoCompactionWork: the same, and installing the outputs is the engine's commit, which CompactionJob.LoopMayCommit shows to be enabled.
- EngineProgress.SleepersAreServed: nothing is said about a scheduler that never runs the background thread, or about a new version that again has too many files at level 0. EngineProgress.SleepersWaitLess speaks about every choice of background steps.
- The one-millisecond delay of writers is a turn that changes nothing; time is not modelled.
- Engine.Apply: memory reclamation by reference counts appears as the set of entries and tables a reader pins.
- DbImpl.DBImpl.MakeRoomForWrite: one call is one turn of the loop, since writers sleep between turns.

libuv:

- Thread creation, exit, fork handling and the destructor of the thread pool; workers exist from the start.
- ThreadPool.LinksLead: in the steps of the pool a request that was called back with `UV_ECANCELED` is cancelled again only during that callback, before the next finished request leaves or is cancelled. Later its links lead to a header that is gone or to requests that left (IntrusiveQueue.RemoveTooLate), and may not be followed.
- ThreadPoolImpl.Pool.Cancel: cancelling is called on the thread of the request's loop, so not for one request twice at the same time.
- ThreadPool.Fair: a signal wakes a sleeping worker if there is one; spurious wake-ups may come at any time.
- The 32-bit node count of the heap and the 64-bit start number of timers do not wrap around.
- Timers.Loop.RunTimers: callbacks start and stop no timers.
- Closing of timer handles beyond stopping them.
- Utf8.Readable: the three bytes after a text can be read, as the decoder may look at them.
- Output buffers that are too small for a host name: what does not fit is dropped, and the properties speak about the text that was to be written.
- Idna.ToAsciiLabel: a label has fewer than 2^32 code points.
- Inet.PToN: the '%' before a zone stands at an index below 2^31, since the source keeps the index in an int.
- The socket wrappers, file polling and the Windows code.

nanopb:

- Callbacks, extensions, pointer fields, arrays of a fixed count and options of old versions.
- Releasing memory: static fields own none.
- PbVarint.Reads32Exactly: for encodings of more than 37 bytes, where the bit position wraps around, the reader is modelled, but what it returns for numbers beyond 32 bits has no closed form here.
- PbDecode.DecodeNoInitFrom: arrays of a fixed count and extensions.
- PbRoundTrip.RoundTrip: the encoding is shorter than 2^32 bytes, as the decoder's lengths have 32 bits.
- PbEncode.Encode: byte counts do not wrap around at 64 bits.
- Error message texts, and what a struct holds after a failed decode.
- Members of a struct are kept by their offsets, not as bytes: the contents of a string's buffer after its NUL are not modelled.
- PbDecode.Tracks: a word of 32 bits is the set of the positions of its bits.

The rest of the repository, its user interface and its calls to remote services, has no invariant of its own to state.
