/** The store as a state machine: writers, the background thread, readers and crashes.
    A step is either a region run under the mutex or one unlocked I/O operation between two such regions. */
module Engine {
  import opened Common
  import opened DbFormat
  import opened Store
  import opened CompactionWork

  // ----- write batches and log records -----

  datatype Op = Op(key: Bytes, ty: ValueType, value: Bytes)
  type Batch = seq<Op>

  /** A group of batches as logged: its operations take the sequence numbers from first on. */
  datatype Record = Record(first: nat, ops: Batch)

  function EntryAt(r: Record, i: nat): Entry
    requires i < |r.ops|
  {
    Entry(r.ops[i].key, r.first + i, r.ops[i].ty, r.ops[i].value)
  }

  /** The first n entries of a record; all of them when n is the number of operations. */
  function FirstEntries(r: Record, n: nat): set<Entry>
    requires n <= |r.ops|
  {
    set i | 0 <= i < n :: EntryAt(r, i)
  }

  function EntriesOf(r: Record): set<Entry> {
    FirstEntries(r, |r.ops|)
  }

  function EntriesIn(records: set<Record>): set<Entry> {
    set r, e | r in records && e in EntriesOf(r) :: e
  }

  // ----- files -----

  type Tables = map<nat, set<Entry>>
  type Logs = map<nat, set<Record>>

  /** Everything in the tables with these numbers. */
  function TableEntries(tables: Tables, numbers: set<nat>): set<Entry> {
    set n, e | n in numbers && n in tables && e in tables[n] :: e
  }

  /** The records of the logs numbered from first on. */
  function LiveRecords(logs: Logs, first: nat): set<Record> {
    set n, r | n in logs && first <= n && r in logs[n] :: r
  }

  function LiveEntries(logs: Logs, first: nat): set<Entry> {
    EntriesIn(LiveRecords(logs, first))
  }

  /** What a manifest names: the current tables, the oldest log still needed, a bound on sequence numbers. */
  datatype Manifest = Manifest(tables: set<nat>, logNumber: nat, lastSequence: nat)
  datatype Version = Version(tables: set<nat>, logNumber: nat)
  datatype Edit = Edit(adds: set<nat>, dels: set<nat>, logNumber: nat, lastSequence: nat)

  function ApplyToManifest(m: Manifest, e: Edit): Manifest {
    Manifest(m.tables - e.dels + e.adds, e.logNumber, e.lastSequence)
  }

  function ApplyToVersion(v: Version, e: Edit): Version {
    Version(v.tables - e.dels + e.adds, e.logNumber)
  }

  // ----- writers -----

  /** A null batch asks for a memtable switch and writes nothing. */
  datatype Writer = Writer(id: nat, batch: Option<Batch>, sync: bool)

  function VarintLength(n: nat): nat {
    if n < 128 then 1 else 1 + VarintLength(n / 128)
  }

  function PrefixedSize(s: Bytes): nat {
    VarintLength(|s|) + |s|
  }

  /** Encoded size of a batch: twelve bytes of header, then a tag and length-prefixed strings per operation. */
  function ByteSize(b: Batch): nat {
    if b == [] then 12
    else
      var op := b[|b| - 1];
      ByteSize(b[..|b| - 1]) + 1 + PrefixedSize(op.key) + if op.ty.Value? then PrefixedSize(op.value) else 0
  }

  const SMALL_WRITE: nat := 0x2_0000  // 128 << 10
  const MAX_GROUP: nat := 0x10_0000   // 1 << 20

  function MaxGroupSize(first: Batch): nat {
    if ByteSize(first) <= SMALL_WRITE then ByteSize(first) + SMALL_WRITE else MAX_GROUP
  }

  /** How many writers from position i on may join a group of the given size. */
  function Joining(writers: seq<Writer>, i: nat, size: nat, maxSize: nat, sync: bool): (n: nat)
    requires i <= |writers|
    ensures i + n <= |writers|
    ensures forall k | i <= k < i + n :: writers[k].sync ==> sync
    decreases |writers| - i
  {
    if i == |writers| || (writers[i].sync && !sync) then 0
    else if writers[i].batch.None? then 1 + Joining(writers, i + 1, size, maxSize, sync)
    else
      var size' := size + ByteSize(writers[i].batch.value);
      if size' > maxSize then 0 else 1 + Joining(writers, i + 1, size', maxSize, sync)
  }

  predicate CanLead(writers: seq<Writer>) {
    writers != [] && writers[0].batch.Some?
  }

  function GroupSize(writers: seq<Writer>): (n: nat)
    requires CanLead(writers)
    ensures 1 <= n <= |writers|
  {
    var first := writers[0].batch.value;
    1 + Joining(writers, 1, ByteSize(first), MaxGroupSize(first), writers[0].sync)
  }

  function Merged(writers: seq<Writer>): Batch {
    if writers == [] then []
    else
      var last := writers[|writers| - 1];
      Merged(writers[..|writers| - 1]) + if last.batch.Some? then last.batch.value else []
  }

  datatype GroupPhase = Logging | Syncing | Inserting | Failed(syncError: bool)

  /** The leader at work, unlocked: the first size writers are its group. */
  datatype Group = Group(size: nat, record: Record, sync: bool, phase: GroupPhase, synced: bool, inserted: nat)

  /** What happened to consecutive writers that left the queue together. */
  datatype Outcome = Outcome(members: seq<Writer>, record: Option<Record>, ok: bool, synced: bool)

  // ----- background work -----

  datatype FlushPhase = Building | Built | Committing
  datatype Flush = Flush(number: nat, phase: FlushPhase)

  datatype Job = Job(
    cmp: Comparator, input: seq<Entry>, isBase: Bytes -> bool, snapshot: nat,
    inputs: set<nat>, outputs: set<nat>, current: Option<nat>, done: nat, committing: bool)
  {
    function AllKept(): seq<Entry> {
      Kept(input, snapshot, isBase, |input|)
    }

    ghost function KeptEntries(): set<Entry> {
      SetOf(AllKept())
    }
  }

  /** A manifest write in progress, with the mutex released. */
  datatype Commit = Commit(edit: Edit, written: bool)

  /** An open iterator or Get: the memory it holds references to, and the version it pins. */
  datatype Reader = Reader(snapshot: nat, memory: set<Entry>, tables: set<nat>)

  /** What the run has established so far; no step of the store consults it.
      committed: records whose insertion finished. unacked: records of groups that failed or died in a crash.
      flushed: entries the current tables stand for. floor: the largest snapshot bound compacted under.
      extra: tables in the manifest through a commit reported as failed, holding the immutable memtable.
      dup: such tables left over after a later attempt succeeded. torn: a compaction commit was written
      but reported as failed. base: the last sequence number when this run of the process began. */
  datatype History = History(
    committed: set<Record>, unacked: set<Record>, arrived: seq<Writer>, outcomes: seq<Outcome>,
    flushed: set<Entry>, floor: nat, extra: set<nat>, dup: set<nat>, torn: bool, base: nat)

  datatype State = State(
    open: bool,
    writers: seq<Writer>, group: Option<Group>, waiting: bool, switched: bool,
    lastSequence: nat, nextFile: nat, logfile: nat,
    mem: set<Entry>, imm: Option<set<Entry>>,
    version: Version, manifest: Manifest, tables: Tables, logs: Logs,
    pending: set<nat>, scheduled: bool, bgError: bool, shuttingDown: bool,
    needsCompaction: bool, l0Full: bool,
    flush: Option<Flush>, job: Option<Job>, commit: Option<Commit>,
    snapshots: seq<nat>, readers: multiset<Reader>,
    h: History)
  {
    function ImmEntries(): set<Entry> {
      if imm.Some? then imm.value else {}
    }

    /** All entries whose insertion finished. */
    function Committed(): set<Entry> {
      EntriesIn(h.committed)
    }

    function InFlight(): set<Record> {
      if group.Some? then {group.value.record} else {}
    }

    /** What reads consult. */
    function Readable(): set<Entry> {
      TableEntries(tables, version.tables) + ImmEntries() + mem
    }

    /** What recovery would find on disk. */
    function OnDisk(): set<Entry> {
      TableEntries(tables, manifest.tables) + LiveEntries(logs, manifest.logNumber)
    }

    predicate BackgroundRunning() {
      flush.Some? || job.Some?
    }
  }

  // ----- regions and I/O steps -----

  /** There is work for the background thread, and nothing forbids it. */
  predicate NeedsCall(s: State) {
    !s.shuttingDown && !s.bgError && (s.imm.Some? || s.needsCompaction)
  }

  function MaybeScheduleCompaction(s: State): State {
    s.(scheduled := s.scheduled || NeedsCall(s))
  }

  function SignalAll(s: State): State {
    s.(waiting := false)
  }

  /** Only the first error is recorded, and wakes the writers. */
  function RecordBackgroundError(s: State): (s': State)
    ensures s'.job == s.job
  {
    s.(bgError := true, waiting := s.waiting && s.bgError)
  }

  function PinnedTables(readers: multiset<Reader>): set<nat> {
    set r, n | r in readers && n in r.tables :: n
  }

  function KeptTables(tables: Tables, live: set<nat>): Tables {
    map n | n in tables && n in live :: tables[n]
  }

  function KeptLogs(logs: Logs, oldest: nat): Logs {
    map n | n in logs && oldest <= n :: logs[n]
  }

  function DeleteObsoleteFiles(s: State): State {
    s.(tables := if s.bgError then s.tables else KeptTables(s.tables, s.pending + s.version.tables + PinnedTables(s.readers)),
       logs := if s.bgError then s.logs else KeptLogs(s.logs, s.version.logNumber))
  }

  /** The end of BackgroundCall. */
  function FinishBackgroundCall(s: State): State {
    SignalAll(s.(scheduled := NeedsCall(s)))
  }

  /** After CompactMemTable: back into the interrupted compaction, or out of the background call. */
  function AfterFlush(s: State): State {
    SignalAll(s.(scheduled := if s.job.Some? then s.scheduled else NeedsCall(s)))
  }

  /** The first n writers leave the queue with one outcome. */
  function PopWriters(s: State, n: nat, record: Option<Record>, ok: bool, synced: bool): State
    requires n <= |s.writers|
  {
    s.(writers := s.writers[n..], switched := false,
       h := s.h.(outcomes := s.h.outcomes + [Outcome(s.writers[..n], record, ok, synced)]))
  }

  /** The snapshot list is in order of creation, so its head is the oldest. */
  function SmallestSnapshot(snapshots: seq<nat>, lastSequence: nat): nat {
    if snapshots == [] then lastSequence else snapshots[0]
  }

  datatype WriterStep =
    | Enqueue(w: Writer)
    | Wait
    | SwitchMemtable
    | RejectFront
    | LetNullFrontGo
    | StartGroup
    | LogRecord(ok: bool, appended: bool)
    | SyncLog(ok: bool)
    | InsertEntry
    | FinishGroup

  datatype FlushStep =
    | StartFlush
    | BuildTable
    | FlushFails
    | CommitFlush
    | WriteFlushManifest
    | FinishFlush(needsCompaction: bool, l0Full: bool)
    | AbortFlush

  datatype JobStep =
    | BackgroundIdle
    | StartJob(cmp: Comparator, inputs: set<nat>, input: seq<Entry>, isBase: Bytes -> bool)
    | OpenOutput
    | WriteOutput(count: nat)
    | JobFails
    | CommitJob
    | WriteJobManifest
    | FinishJob(needsCompaction: bool, l0Full: bool)
    | AbortJob

  datatype ReaderStep =
    | GetSnapshot
    | ReleaseSnapshot(i: nat)
    | OpenReader(t: nat)
    | CloseReader(r: Reader)
    | SampleRead
    | Shutdown

  /** Between a crash and the next successful Open, attempts to open may come to grief anywhere: after writing a table
      or the new log, after rewriting the manifest, or in the middle of collecting garbage. */
  datatype LifeStep =
    | Crash
    | LeaveTable(number: nat, content: set<Entry>)
    | LeaveLog(number: nat)
    | LeaveManifest(r: Recovery)
    | LoseTable(number: nat)
    | LoseLog(number: nat)
    | Open(r: Recovery)

  datatype Step = Write(writer: WriterStep) | Flushing(flush: FlushStep) | Compacting(job: JobStep)
                | Use(reader: ReaderStep) | Life(life: LifeStep)

  function FlushEdit(s: State): Edit
    requires s.flush.Some?
  {
    Edit(if s.ImmEntries() == {} then {} else {s.flush.value.number}, {}, s.logfile, s.lastSequence)
  }

  function JobEdit(s: State): Edit
    requires s.job.Some?
  {
    Edit(s.job.value.outputs, s.job.value.inputs, s.version.logNumber, s.lastSequence)
  }

  /** The front writer runs, holding the mutex, between MakeRoomForWrite's decisions. */
  predicate FrontRuns(s: State) {
    s.open && s.writers != [] && s.group.None? && !s.waiting
  }

  /** The front writer finds the memtable full, or is told to switch, and nothing stands in the way. A fresh
      memtable has room, so it switches at most once. */
  predicate CanSwitch(s: State) {
    s.imm.None? && !s.l0Full && !s.switched
  }

  predicate WriterEnabled(s: State, step: WriterStep) {
    match step
    case Enqueue(w) => !s.shuttingDown
    case Wait => FrontRuns(s) && !s.bgError && !s.switched && (s.imm.Some? || s.l0Full)
    case SwitchMemtable => FrontRuns(s) && !s.bgError && CanSwitch(s)
    case RejectFront => FrontRuns(s) && (s.bgError || CanSwitch(s))
    case LetNullFrontGo => FrontRuns(s) && !s.bgError && s.switched && s.writers[0].batch.None?
    case StartGroup => FrontRuns(s) && !s.bgError && CanLead(s.writers)
    case LogRecord(ok, appended) => s.group.Some? && s.group.value.phase.Logging? && (ok ==> appended)
    case SyncLog(ok) => s.group.Some? && s.group.value.phase.Syncing?
    case InsertEntry => s.group.Some? && s.group.value.phase.Inserting? && s.group.value.inserted < |s.group.value.record.ops|
    case FinishGroup =>
      && s.group.Some? && s.group.value.size <= |s.writers|
      && var g := s.group.value;
      && (g.phase.Failed? || (g.phase.Inserting? && g.inserted == |g.record.ops|))
  }

  predicate FlushEnabled(s: State, step: FlushStep) {
    match step
    case StartFlush =>
      && s.imm.Some? && s.flush.None?
      && if s.job.Some? then !s.job.value.committing else s.scheduled && !s.shuttingDown && !s.bgError
    case BuildTable => s.flush.Some? && s.flush.value.phase.Building?
    case FlushFails => s.flush.Some? && !s.flush.value.phase.Committing?
    case CommitFlush => s.flush.Some? && s.flush.value.phase.Built? && !s.shuttingDown
    case WriteFlushManifest => s.flush.Some? && s.flush.value.phase.Committing? && s.commit.Some? && !s.commit.value.written
    case FinishFlush(needs, l0) =>
      s.flush.Some? && s.flush.value.phase.Committing? && s.commit.Some? && s.commit.value.written && (l0 ==> needs)
    case AbortFlush => s.flush.Some? && s.flush.value.phase.Committing? && s.commit.Some?
  }

  predicate JobWorks(s: State) {
    s.job.Some? && s.flush.None? && !s.job.value.committing
  }

  /** The merging iterator yields an entry again only when another of the merged tables holds it too. */
  ghost predicate RepeatsAreShared(tables: Tables, inputs: set<nat>, input: seq<Entry>) {
    forall i, k | 0 <= i < k < |input| && input[i] == input[k] :: IsShared(tables, inputs, input[k])
  }

  /** Two of these tables hold the entry. */
  ghost predicate IsShared(tables: Tables, numbers: set<nat>, e: Entry) {
    exists n, m | n in numbers && m in numbers && n != m :: n in tables && m in tables && e in tables[n] && e in tables[m]
  }

  /** What PickCompaction and the input iterator promise. */
  ghost predicate CanCompact(s: State, cmp: Comparator, inputs: set<nat>, input: seq<Entry>, isBase: Bytes -> bool) {
    && inputs != {} && inputs <= s.version.tables
    && IsTotalOrder(cmp) && Sorted(cmp, input) && SetOf(input) == TableEntries(s.tables, inputs)
    && RepeatsAreShared(s.tables, inputs, input)
    && BaseLevelHolds(SetOf(input), TableEntries(s.tables, s.version.tables - inputs), isBase)
    && s.lastSequence < MAX_SEQUENCE_NUMBER
  }

  ghost predicate JobEnabled(s: State, step: JobStep) {
    match step
    case BackgroundIdle => s.scheduled && !s.BackgroundRunning() && (s.shuttingDown || s.bgError || s.imm.None?)
    case StartJob(cmp, inputs, input, isBase) =>
      && s.scheduled && !s.BackgroundRunning() && !s.shuttingDown && !s.bgError && s.imm.None?
      && CanCompact(s, cmp, inputs, input, isBase)
    case OpenOutput => JobWorks(s) && s.job.value.current.None? && s.job.value.done < |s.job.value.AllKept()|
    case WriteOutput(count) =>
      JobWorks(s) && s.job.value.current.Some? && 1 <= count && s.job.value.done + count <= |s.job.value.AllKept()|
    case JobFails => JobWorks(s)
    case CommitJob =>
      && JobWorks(s) && !s.shuttingDown
      && s.job.value.current.None? && s.job.value.done == |s.job.value.AllKept()|
    case WriteJobManifest => s.job.Some? && s.job.value.committing && s.commit.Some? && !s.commit.value.written
    case FinishJob(needs, l0) =>
      s.job.Some? && s.job.value.committing && s.commit.Some? && s.commit.value.written && (l0 ==> needs)
    case AbortJob => s.job.Some? && s.job.value.committing && s.commit.Some?
  }

  predicate ReaderEnabled(s: State, step: ReaderStep) {
    match step
    case GetSnapshot => true
    case ReleaseSnapshot(i) => i < |s.snapshots|
    case OpenReader(t) => t == s.lastSequence || t in s.snapshots
    case CloseReader(r) => r in s.readers
    case SampleRead => true
    case Shutdown => s.writers == []
  }

  ghost predicate LifeEnabled(s: State, step: LifeStep) {
    match step
    case Crash => s.open
    case LeaveTable(n, _) => !s.open && n !in s.manifest.tables
    case LeaveLog(n) => !s.open && s.manifest.logNumber <= n && forall m | m in s.logs :: m < n
    case LeaveManifest(r) => !s.open && CanReopen(s, r)
    case LoseTable(n) => !s.open && n !in s.manifest.tables
    case LoseLog(n) => !s.open && n < s.manifest.logNumber
    case Open(r) => !s.open && CanReopen(s, r)
  }

  ghost predicate Enabled(s: State, step: Step) {
    match step
    case Write(w) => s.open && WriterEnabled(s, w)
    case Flushing(f) => s.open && FlushEnabled(s, f)
    case Compacting(j) => s.open && JobEnabled(s, j)
    case Use(r) => s.open && ReaderEnabled(s, r)
    case Life(l) => LifeEnabled(s, l)
  }

  /** What recovery decided: the tables it wrote, the memtable it kept, the log in use from now on, the next file
      number, whether the manifest is rewritten, and the last sequence number. */
  datatype Recovery = Recovery(
    tables: Tables, memory: set<Entry>, log: nat, nextFile: nat, save: bool, lastSequence: nat,
    needsCompaction: bool, l0Full: bool)
  {
    function Entries(): set<Entry> {
      TableEntries(tables, tables.Keys)
    }
  }

  /** Every live log record is replayed, into fresh level-0 tables or, for the last log when it is reused, into
      the memtable; the next sequence number is past all of them. */
  ghost predicate CanReopen(s: State, r: Recovery) {
    && r.tables.Keys !! s.manifest.tables
    && r.Entries() + r.memory == LiveEntries(s.logs, s.manifest.logNumber)
    && s.manifest.logNumber <= r.log < r.nextFile
    && (if r.log in s.logs
        then r.memory == EntriesIn(s.logs[r.log]) && r.Entries() == EntriesIn(RecordsBetween(s.logs, s.manifest.logNumber, r.log))
        else r.memory == {})
    && (forall n | n in s.logs && s.manifest.logNumber <= n :: n <= r.log)
    && (forall n | n in s.manifest.tables + r.tables.Keys :: n < r.nextFile)
    && (!r.save ==> r.tables == map[])
    && s.manifest.lastSequence <= r.lastSequence
    && (forall q | q in LiveRecords(s.logs, s.manifest.logNumber) :: q.first + |q.ops| <= r.lastSequence + 1)
    && (r.l0Full ==> r.needsCompaction)
  }

  function AppendRecord(logs: Logs, n: nat, r: Record): Logs {
    logs[n := (if n in logs then logs[n] else {}) + {r}]
  }

  function RecordsBetween(logs: Logs, first: nat, end: nat): set<Record> {
    set n, r | n in logs && first <= n < end && r in logs[n] :: r
  }

  // ----- what each step does -----

  function Switched(s: State): State {
    MaybeScheduleCompaction(
      s.(nextFile := s.nextFile + 1, logs := s.logs[s.nextFile := {}], logfile := s.nextFile,
         imm := Some(s.mem), mem := {}, switched := true))
  }

  function GroupStarted(s: State): State
    requires CanLead(s.writers)
  {
    var n := GroupSize(s.writers);
    s.(group := Some(Group(n, Record(s.lastSequence + 1, Merged(s.writers[..n])), s.writers[0].sync, Logging, false, 0)))
  }

  function RecordLogged(s: State, ok: bool, appended: bool): State
    requires s.group.Some?
  {
    var g := s.group.value;
    s.(group := Some(g.(phase := if !ok then Failed(false) else if g.sync then Syncing else Inserting)),
       logs := if appended then AppendRecord(s.logs, s.logfile, g.record) else s.logs)
  }

  function LogSynced(s: State, ok: bool): State
    requires s.group.Some?
  {
    s.(group := Some(s.group.value.(phase := if ok then Inserting else Failed(true), synced := ok)))
  }

  function EntryInserted(s: State): State
    requires s.group.Some? && s.group.value.inserted < |s.group.value.record.ops|
  {
    var g := s.group.value;
    s.(mem := s.mem + {EntryAt(g.record, g.inserted)}, group := Some(g.(inserted := g.inserted + 1)))
  }

  /** The sequence numbers are used up whether or not the group succeeded. */
  function GroupClosed(s: State): State
    requires s.group.Some?
  {
    var g := s.group.value;
    s.(lastSequence := s.lastSequence + |g.record.ops|, group := None,
       bgError := s.bgError || g.phase == Failed(true),
       waiting := s.waiting && (s.bgError || g.phase != Failed(true)),
       h := s.h.(unacked := if g.phase.Failed? then s.h.unacked + {g.record} else s.h.unacked,
                 committed := if g.phase.Failed? then s.h.committed else s.h.committed + {g.record}))
  }

  function GroupFinished(s: State): State
    requires s.group.Some? && s.group.value.size <= |s.writers|
  {
    var g := s.group.value;
    PopWriters(GroupClosed(s), g.size, Some(g.record), g.phase.Inserting?, g.synced)
  }

  function FlushStarted(s: State): State {
    s.(nextFile := s.nextFile + 1, pending := s.pending + {s.nextFile}, flush := Some(Flush(s.nextFile, Building)))
  }

  /** An empty memtable leaves no file. */
  function TableBuilt(s: State): State
    requires s.flush.Some?
  {
    s.(tables := if s.ImmEntries() == {} then s.tables else s.tables[s.flush.value.number := s.ImmEntries()],
       flush := Some(s.flush.value.(phase := Built)))
  }

  function FlushFailed(s: State): State
    requires s.flush.Some?
  {
    AfterFlush(RecordBackgroundError(s.(pending := s.pending - {s.flush.value.number}, flush := None)))
  }

  function FlushCommitting(s: State): State
    requires s.flush.Some?
  {
    s.(pending := s.pending - {s.flush.value.number}, flush := Some(s.flush.value.(phase := Committing)),
       commit := Some(Commit(FlushEdit(s), false)))
  }

  function ManifestWritten(s: State): State
    requires s.commit.Some?
  {
    s.(commit := Some(s.commit.value.(written := true)), manifest := ApplyToManifest(s.manifest, s.commit.value.edit))
  }

  function FlushWritten(s: State): State
    requires s.commit.Some?
  {
    ManifestWritten(s.(h := s.h.(extra := s.h.extra + s.commit.value.edit.adds)))
  }

  function FlushInstalled(s: State, needs: bool, l0: bool): State
    requires s.commit.Some?
  {
    var e := s.commit.value.edit;
    s.(flush := None, commit := None, version := ApplyToVersion(s.version, e), imm := None,
       needsCompaction := needs, l0Full := l0,
       h := s.h.(flushed := s.h.flushed + s.ImmEntries(), extra := {}, dup := s.h.dup + (s.h.extra - e.adds)))
  }

  function FlushFinished(s: State, needs: bool, l0: bool): State
    requires s.commit.Some?
  {
    AfterFlush(DeleteObsoleteFiles(FlushInstalled(s, needs, l0)))
  }

  /** LogAndApply reported a failure: whether the manifest was written is unknown. */
  function FlushAborted(s: State): State {
    AfterFlush(RecordBackgroundError(s.(flush := None, commit := None)))
  }

  function OutputOpened(s: State): State
    requires s.job.Some?
  {
    s.(nextFile := s.nextFile + 1, pending := s.pending + {s.nextFile},
       job := Some(s.job.value.(outputs := s.job.value.outputs + {s.nextFile}, current := Some(s.nextFile))))
  }

  /** The open output is finished: it holds the next so many of the entries that are kept. */
  ghost function OutputWritten(s: State, count: nat): State
    requires s.job.Some? && s.job.value.current.Some? && s.job.value.done + count <= |s.job.value.AllKept()|
  {
    var j := s.job.value;
    s.(tables := s.tables[j.current.value := SetOf(j.AllKept()[j.done..j.done + count])],
       job := Some(j.(current := None, done := j.done + count)))
  }

  function JobCommitting(s: State): State
    requires s.job.Some?
  {
    s.(job := Some(s.job.value.(committing := true)), commit := Some(Commit(JobEdit(s), false)))
  }

  function JobWasWritten(s: State): State
    requires s.commit.Some? && s.job.Some?
  {
    ManifestWritten(s.(h := s.h.(floor := if s.h.floor < s.job.value.snapshot then s.job.value.snapshot else s.h.floor)))
  }

  /** CleanupCompaction, then garbage collection and the end of the background call. */
  function JobEnded(s: State): State
    requires s.job.Some?
  {
    FinishBackgroundCall(DeleteObsoleteFiles(s.(pending := s.pending - s.job.value.outputs, job := None, commit := None)))
  }

  function JobInstalled(s: State, needs: bool, l0: bool): (s': State)
    requires s.commit.Some?
    ensures s'.job == s.job
  {
    s.(version := ApplyToVersion(s.version, s.commit.value.edit), needsCompaction := needs, l0Full := l0)
  }

  function JobFinished(s: State, needs: bool, l0: bool): State
    requires s.commit.Some? && s.job.Some?
  {
    JobEnded(JobInstalled(s, needs, l0))
  }

  function JobTorn(s: State): (s': State)
    requires s.commit.Some?
    ensures s'.job == s.job
  {
    RecordBackgroundError(s.(h := s.h.(torn := s.h.torn || s.commit.value.written)))
  }

  function JobAborted(s: State): State
    requires s.commit.Some? && s.job.Some?
  {
    JobEnded(JobTorn(s))
  }

  function Reopened(s: State, r: Recovery): State {
    var manifest := if r.save then Manifest(s.manifest.tables + r.tables.Keys, r.log, r.lastSequence) else s.manifest;
    State(true, [], None, false, false, r.lastSequence, r.nextFile, r.log, r.memory, None,
          Version(manifest.tables, manifest.logNumber), manifest, s.tables + r.tables,
          if r.log in s.logs then s.logs else s.logs[r.log := {}],
          {}, false, false, false, r.needsCompaction, r.l0Full, None, None, None, [], multiset{},
          History(s.h.committed + LiveRecords(s.logs, s.manifest.logNumber), {}, [], [],
                  s.h.flushed + TableEntries(s.tables, s.h.extra) + r.Entries(),
                  s.h.floor, {}, {}, false, r.lastSequence))
  }

  function ApplyWriter(s: State, step: WriterStep): State
    requires WriterEnabled(s, step)
  {
    match step
    case Enqueue(w) => s.(writers := s.writers + [w], h := s.h.(arrived := s.h.arrived + [w]))
    case Wait => s.(waiting := true)
    case SwitchMemtable => Switched(s)
    case RejectFront => PopWriters(s, 1, None, false, false)
    case LetNullFrontGo => PopWriters(s, 1, None, true, false)
    case StartGroup => GroupStarted(s)
    case LogRecord(ok, appended) => RecordLogged(s, ok, appended)
    case SyncLog(ok) => LogSynced(s, ok)
    case InsertEntry => EntryInserted(s)
    case FinishGroup => GroupFinished(s)
  }

  function ApplyFlush(s: State, step: FlushStep): State
    requires FlushEnabled(s, step)
  {
    match step
    case StartFlush => FlushStarted(s)
    case BuildTable => TableBuilt(s)
    case FlushFails => FlushFailed(s)
    case CommitFlush => FlushCommitting(s)
    case WriteFlushManifest => FlushWritten(s)
    case FinishFlush(needs, l0) => FlushFinished(s, needs, l0)
    case AbortFlush => FlushAborted(s)
  }

  ghost function ApplyJob(s: State, step: JobStep): State
    requires JobEnabled(s, step)
  {
    match step
    case BackgroundIdle => FinishBackgroundCall(s)
    case StartJob(cmp, inputs, input, isBase) =>
      s.(job := Some(Job(cmp, input, isBase, SmallestSnapshot(s.snapshots, s.lastSequence), inputs, {}, None, 0, false)))
    case OpenOutput => OutputOpened(s)
    case WriteOutput(count) => OutputWritten(s, count)
    case JobFails => JobEnded(RecordBackgroundError(s))
    case CommitJob => JobCommitting(s)
    case WriteJobManifest => JobWasWritten(s)
    case FinishJob(needs, l0) => JobFinished(s, needs, l0)
    case AbortJob => JobAborted(s)
  }

  function ApplyReader(s: State, step: ReaderStep): State
    requires ReaderEnabled(s, step)
  {
    match step
    case GetSnapshot => s.(snapshots := s.snapshots + [s.lastSequence])
    case ReleaseSnapshot(i) => s.(snapshots := s.snapshots[..i] + s.snapshots[i + 1..])
    case OpenReader(t) => s.(readers := s.readers + multiset{Reader(t, s.mem + s.ImmEntries(), s.version.tables)})
    case CloseReader(r) => s.(readers := s.readers - multiset{r})
    case SampleRead => MaybeScheduleCompaction(s.(needsCompaction := true))
    case Shutdown => s.(shuttingDown := true)
  }

  function Crashed(s: State): State {
    s.(open := false, group := None, h := s.h.(unacked := s.h.unacked + s.InFlight()))
  }

  ghost function ApplyLife(s: State, step: LifeStep): State
    requires LifeEnabled(s, step)
  {
    match step
    case Crash => Crashed(s)
    case LeaveTable(n, content) => s.(tables := s.tables[n := content])
    case LeaveLog(n) => s.(logs := s.logs[n := {}], logfile := n)
    case LeaveManifest(r) => Crashed(Reopened(s, r))
    case LoseTable(n) => s.(tables := s.tables - {n})
    case LoseLog(n) => s.(logs := s.logs - {n})
    case Open(r) => MaybeScheduleCompaction(DeleteObsoleteFiles(Reopened(s, r)))
  }

  ghost function Apply(s: State, step: Step): State
    requires Enabled(s, step)
  {
    match step
    case Write(w) => ApplyWriter(s, w)
    case Flushing(f) => ApplyFlush(s, f)
    case Compacting(j) => ApplyJob(s, j)
    case Use(r) => ApplyReader(s, r)
    case Life(l) => ApplyLife(s, l)
  }

  /** A database just created: a manifest that names nothing, and no files. */
  const Created: State :=
    State(false, [], None, false, false, 0, 2, 0, {}, None, Version({}, 0), Manifest({}, 0, 0), map[], map[],
          {}, false, false, false, false, false, None, None, None, [], multiset{},
          History({}, {}, [], [], {}, 0, {}, {}, false, 0))

  ghost predicate StepAt(run: seq<State>, steps: seq<Step>, i: nat)
    requires i < |steps| < |run|
  {
    Enabled(run[i], steps[i]) && run[i + 1] == Apply(run[i], steps[i])
  }

  ghost predicate IsRun(run: seq<State>, steps: seq<Step>) {
    && |run| == |steps| + 1
    && run[0] == Created
    && forall i {:trigger StepAt(run, steps, i)} | 0 <= i < |steps| :: StepAt(run, steps, i)
  }
}
