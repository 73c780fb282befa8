/** What holds in every reachable state of the engine. Each part is stated over the components it is about. */
module EngineInvariant {
  import opened Common
  import opened DbFormat
  import opened Store
  import opened CompactionWork
  import opened Engine

  ghost predicate AtMost(entries: set<Entry>, n: nat) {
    forall e | e in entries :: e.sequence <= n
  }

  ghost predicate Below(numbers: set<nat>, n: nat) {
    forall k | k in numbers :: k < n
  }

  /** Under every snapshot from floor on, the tables answer as the flushed history does. */
  ghost predicate StandsFor(entries: set<Entry>, flushed: set<Entry>, floor: nat) {
    && entries <= flushed
    && forall t | t >= floor :: SameAt(entries, flushed, t)
  }

  function Inserted(group: Option<Group>): set<Entry> {
    if group.Some? && group.value.inserted <= |group.value.record.ops|
    then FirstEntries(group.value.record, group.value.inserted) else {}
  }

  /** The record in flight, once its append was attempted. */
  function Logged(group: Option<Group>): set<Record> {
    if group.Some? && !group.value.phase.Logging? then {group.value.record} else {}
  }

  function JobInputs(job: Option<Job>): set<nat> {
    if job.Some? then job.value.inputs else {}
  }

  function JobOutputs(job: Option<Job>): set<nat> {
    if job.Some? then job.value.outputs else {}
  }

  function FlushNumbers(flush: Option<Flush>): set<nat> {
    if flush.Some? then {flush.value.number} else {}
  }

  predicate JobWritten(job: Option<Job>, commit: Option<Commit>) {
    job.Some? && job.value.committing && commit.Some? && commit.value.written
  }

  /** Later logs hold newer entries. */
  ghost predicate LogOrder(logs: Logs, first: nat) {
    forall n, m | n in logs && m in logs && first <= n < m :: AllNewer(EntriesIn(logs[m]), EntriesIn(logs[n]))
  }

  // ----- memory and logs -----

  ghost predicate MemoryHolds(
      logs: Logs, logfile: nat, oldest: nat, flushed: set<Entry>, imm: set<Entry>, mem: set<Entry>,
      committed: set<Entry>, inserted: set<Entry>)
  {
    && logfile in logs && oldest <= logfile
    && (forall n | n in logs :: n <= logfile)
    && flushed + imm + mem == committed + inserted
    && AllNewer(imm + mem, flushed) && AllNewer(mem, imm)
    && mem <= EntriesIn(logs[logfile])
    && imm <= EntriesIn(RecordsBetween(logs, oldest, logfile))
    && flushed + imm <= committed
  }

  ghost predicate InvMemory(s: State) {
    MemoryHolds(s.logs, s.logfile, s.version.logNumber, s.h.flushed, s.ImmEntries(), s.mem, s.Committed(), Inserted(s.group))
  }

  ghost predicate LogsHold(
      logs: Logs, oldest: nat, flushed: set<Entry>, committed: set<Record>, unacked: set<Record>,
      logged: set<Record>, lastSequence: nat)
  {
    && LiveRecords(logs, oldest) <= committed + unacked + logged
    && AllNewer(LiveEntries(logs, oldest), flushed)
    && LogOrder(logs, oldest)
    && AtMost(EntriesIn(committed) + EntriesIn(unacked), lastSequence)
  }

  ghost predicate InvLogs(s: State) {
    LogsHold(s.logs, s.version.logNumber, s.h.flushed, s.h.committed, s.h.unacked, Logged(s.group), s.lastSequence)
  }

  // ----- tables, the version in memory and the manifest on disk -----

  ghost predicate TablesHold(
      tables: Tables, version: Version, manifest: Manifest, flushed: set<Entry>, floor: nat, extra: set<nat>,
      imm: Option<set<Entry>>, logfile: nat, lastSequence: nat)
  {
    && version.tables <= tables.Keys && extra <= manifest.tables <= tables.Keys
    && StandsFor(TableEntries(tables, version.tables), flushed, floor)
    && StandsFor(TableEntries(tables, manifest.tables - extra), flushed, floor)
    && (forall n | n in extra :: imm.Some? && n in tables && tables[n] == imm.value)
    && (manifest.logNumber == version.logNumber
        || (manifest.logNumber == logfile && imm.Some? && imm.value <= TableEntries(tables, extra)))
    && AtMost(flushed + TableEntries(tables, extra), manifest.lastSequence)
    && floor <= manifest.lastSequence <= lastSequence
  }

  ghost predicate InvTables(s: State) {
    TablesHold(s.tables, s.version, s.manifest, s.h.flushed, s.h.floor, s.h.extra, s.imm, s.logfile, s.lastSequence)
  }

  /** How manifest and version relate, unless a compaction commit tore them apart. */
  ghost predicate ManifestHolds(
      tables: Tables, current: set<nat>, named: set<nat>, extra: set<nat>, dup: set<nat>, torn: bool,
      job: Option<Job>, flush: Option<Flush>, commit: Option<Commit>, bgError: bool)
  {
    && dup <= named && extra !! current && dup !! extra && dup !! current
    && TableEntries(tables, dup) <= TableEntries(tables, current - JobInputs(job))
    && (!torn ==>
          named - extra ==
          (if JobWritten(job, commit) then current - JobInputs(job) + JobOutputs(job) else current) + dup)
    && (torn ==> bgError && flush.None? && job.None?)
    && (!bgError ==>
          && dup == {}
          && (extra == {} || (flush.Some? && commit.Some? && commit.value.written && extra <= commit.value.edit.adds)))
  }

  ghost predicate InvManifest(s: State) {
    ManifestHolds(s.tables, s.version.tables, s.manifest.tables, s.h.extra, s.h.dup, s.h.torn, s.job, s.flush, s.commit, s.bgError)
  }

  ghost predicate InvNumbers(s: State) {
    && Below(s.tables.Keys, s.nextFile) && Below(s.logs.Keys, s.nextFile) && Below(s.pending, s.nextFile)
    && s.logfile < s.nextFile && Below(JobOutputs(s.job), s.nextFile) && Below(FlushNumbers(s.flush), s.nextFile)
  }

  // ----- background work -----

  ghost predicate FlushHolds(
      f: Flush, imm: Option<set<Entry>>, tables: Tables, current: set<nat>, manifest: Manifest, pending: set<nat>,
      outputs: set<nat>, dup: set<nat>, extra: set<nat>, commit: Option<Commit>, flushed: set<Entry>, logfile: nat,
      lastSequence: nat)
  {
    && imm.Some?
    && f.number !in current && f.number !in outputs && f.number !in dup
    && (!f.phase.Building? && imm.value != {} ==> f.number in tables && tables[f.number] == imm.value)
    && if !f.phase.Committing?
       then f.number in pending && f.number !in manifest.tables && commit.None?
       else
         && commit.Some?
         && var e := commit.value.edit;
         && e.adds == (if imm.value == {} then {} else {f.number}) && e.dels == {}
         && e.logNumber == logfile
         && AtMost(flushed + imm.value, e.lastSequence)
         && manifest.lastSequence <= e.lastSequence <= lastSequence
         && if commit.value.written
            then manifest.logNumber == logfile && e.adds <= extra
            else f.number !in manifest.tables
  }

  predicate CommitHolds(flush: Option<Flush>, job: Option<Job>, commit: Option<Commit>) {
    && (commit.Some? <==> (flush.Some? && flush.value.phase.Committing?) || (job.Some? && job.value.committing))
    && (job.Some? && job.value.committing ==> flush.None?)
  }

  ghost predicate InvFlush(s: State) {
    && CommitHolds(s.flush, s.job, s.commit)
    && (s.flush.Some? ==>
          FlushHolds(s.flush.value, s.imm, s.tables, s.version.tables, s.manifest, s.pending, JobOutputs(s.job),
                     s.h.dup, s.h.extra, s.commit, s.h.flushed, s.logfile, s.lastSequence))
  }

  /** No two current tables share an entry, but for what a failed commit and a later attempt both wrote before this run
      of the process began. */
  ghost predicate RepeatsHold(tables: Tables, current: set<nat>, base: nat) {
    forall n, m, e | n in current && m in current && n != m && n in tables && m in tables && e in tables[n] && e in tables[m] ::
      e.sequence <= base
  }

  ghost predicate InvRepeats(s: State) {
    RepeatsHold(s.tables, s.version.tables, s.h.base)
  }

  /** The inputs are read from the current version, and what outlives them is not older. */
  ghost predicate InputHolds(j: Job, tables: Tables, current: set<nat>) {
    && j.inputs <= current
    && IsTotalOrder(j.cmp) && Sorted(j.cmp, j.input) && SetOf(j.input) == TableEntries(tables, j.inputs)
    && RepeatsBelow(j.input, j.snapshot)
    && BaseLevelHolds(SetOf(j.input), TableEntries(tables, current - j.inputs), j.isBase)
  }

  ghost predicate OutputHolds(
      j: Job, tables: Tables, current: set<nat>, named: set<nat>, pending: set<nat>, dup: set<nat>, extra: set<nat>,
      written: bool)
  {
    && j.outputs <= pending && j.outputs !! current && j.outputs !! dup && j.outputs !! extra
    && (!written ==> j.outputs !! named)
  }

  /** The finished outputs are consecutive pieces of what is kept, and share no entry. */
  ghost predicate PiecesHold(j: Job, tables: Tables) {
    && j.done <= |j.AllKept()| && TableEntries(tables, j.outputs) == SetOf(j.AllKept()[..j.done])
    && (j.current.Some? ==> j.current.value in j.outputs && j.current.value !in tables && j.done < |j.AllKept()|)
    && (forall n | n in j.outputs && j.current != Some(n) :: n in tables)
    && (forall n, m | n in j.outputs && m in j.outputs && n != m && n in tables && m in tables :: tables[n] !! tables[m])
    && (j.committing ==> j.current.None? && j.done == |j.AllKept()|)
  }

  ghost predicate JobCommitHolds(
      j: Job, c: Commit, logNumber: nat, before: nat, atMost: set<Entry>, floor: nat, lastSequence: nat)
  {
    && c.edit == Edit(j.outputs, j.inputs, logNumber, c.edit.lastSequence)
    && AtMost(atMost, c.edit.lastSequence)
    && j.snapshot <= c.edit.lastSequence && before <= c.edit.lastSequence <= lastSequence
    && (c.written ==> j.snapshot <= floor)
  }

  ghost predicate InvJob(s: State) {
    s.job.Some? ==>
      && InputHolds(s.job.value, s.tables, s.version.tables)
      && OutputHolds(s.job.value, s.tables, s.version.tables, s.manifest.tables, s.pending, s.h.dup, s.h.extra,
                     JobWritten(s.job, s.commit))
      && PiecesHold(s.job.value, s.tables) && s.h.base <= s.job.value.snapshot
      && s.job.value.snapshot < MAX_SEQUENCE_NUMBER && s.job.value.snapshot <= s.lastSequence
      && (s.job.value.committing && s.commit.Some? ==>
            JobCommitHolds(s.job.value, s.commit.value, s.version.logNumber, s.manifest.lastSequence,
                           s.h.flushed + TableEntries(s.tables, s.h.extra), s.h.floor, s.lastSequence))
  }

  // ----- readers -----

  ghost predicate SnapshotsHold(snapshots: seq<nat>, job: Option<Job>, floor: nat, base: nat, lastSequence: nat) {
    && base <= lastSequence
    && (forall i | 0 <= i < |snapshots| ::
          floor <= snapshots[i] <= lastSequence && base <= snapshots[i] && (job.Some? ==> job.value.snapshot <= snapshots[i]))
    && (forall i, j | 0 <= i < j < |snapshots| :: snapshots[i] <= snapshots[j])
  }

  ghost predicate ReaderHolds(r: Reader, tables: Tables, writing: set<nat>, committed: set<Entry>, lastSequence: nat) {
    && r.tables <= tables.Keys && r.tables !! writing && r.snapshot <= lastSequence
    && SameAt(r.memory + TableEntries(tables, r.tables), committed, r.snapshot)
  }

  /** Numbers of the table files being written. */
  function Writing(flush: Option<Flush>, job: Option<Job>): set<nat> {
    JobOutputs(job) + if flush.Some? && !flush.value.phase.Committing? then {flush.value.number} else {}
  }

  ghost predicate ReadersHold(
      readers: multiset<Reader>, tables: Tables, writing: set<nat>, committed: set<Entry>, lastSequence: nat)
  {
    forall r | r in readers :: ReaderHolds(r, tables, writing, committed, lastSequence)
  }

  ghost predicate InvReaders(s: State) {
    && SnapshotsHold(s.snapshots, s.job, s.h.floor, s.h.base, s.lastSequence)
    && ReadersHold(s.readers, s.tables, Writing(s.flush, s.job), s.Committed(), s.lastSequence)
  }

  // ----- writers -----

  ghost predicate GroupHolds(g: Group, writers: seq<Writer>, lastSequence: nat, logs: Logs, logfile: nat) {
    && 1 <= g.size <= |writers|
    && g.record.first == lastSequence + 1 && g.record.ops == Merged(writers[..g.size])
    && (forall i | 0 <= i < g.size :: writers[i].sync ==> g.sync)
    && g.inserted <= |g.record.ops| && (!g.phase.Inserting? ==> g.inserted == 0)
    && (g.phase.Syncing? || g.phase.Inserting? ==> logfile in logs && g.record in logs[logfile])
    && (g.phase.Inserting? && g.sync ==> g.synced)
  }

  ghost predicate InvGroup(s: State) {
    s.group.Some? ==> GroupHolds(s.group.value, s.writers, s.lastSequence, s.logs, s.logfile)
  }

  /** Sequence numbers taken by a run of outcomes. */
  function Taken(outcomes: seq<Outcome>): nat {
    if outcomes == [] then 0
    else
      var o := outcomes[|outcomes| - 1];
      Taken(outcomes[..|outcomes| - 1]) + if o.record.Some? then |o.record.value.ops| else 0
  }

  function MembersOf(outcomes: seq<Outcome>): seq<Writer> {
    if outcomes == [] then [] else MembersOf(outcomes[..|outcomes| - 1]) + outcomes[|outcomes| - 1].members
  }

  /** A group took the next sequence numbers, in queue order, and synced when any member asked for it. */
  ghost predicate GoodOutcome(o: Outcome, first: nat, committed: set<Record>, unacked: set<Record>) {
    o.record.Some? ==>
      && o.record.value == Record(first, Merged(o.members))
      && (if o.ok then o.record.value in committed else o.record.value in unacked)
      && (o.ok ==> forall w | w in o.members && w.sync :: o.synced)
  }

  ghost predicate QueueHolds(
      arrived: seq<Writer>, outcomes: seq<Outcome>, writers: seq<Writer>, base: nat, lastSequence: nat,
      committed: set<Record>, unacked: set<Record>)
  {
    && arrived == MembersOf(outcomes) + writers
    && lastSequence == base + Taken(outcomes)
    && forall i | 0 <= i < |outcomes| :: GoodOutcome(outcomes[i], base + Taken(outcomes[..i]) + 1, committed, unacked)
  }

  ghost predicate InvQueue(s: State) {
    QueueHolds(s.h.arrived, s.h.outcomes, s.writers, s.h.base, s.lastSequence, s.h.committed, s.h.unacked)
  }

  /** A group is seen entirely or not at all. */
  ghost predicate Whole(r: Record, t: nat) {
    (forall e | e in EntriesOf(r) :: e.sequence <= t) || (forall e | e in EntriesOf(r) :: e.sequence > t)
  }

  ghost predicate WholeHolds(records: set<Record>, snapshots: seq<nat>, readers: multiset<Reader>) {
    forall r | r in records ::
      && (forall i | 0 <= i < |snapshots| :: Whole(r, snapshots[i]))
      && (forall d | d in readers :: Whole(r, d.snapshot))
  }

  ghost predicate InvWhole(s: State) {
    WholeHolds(s.h.committed + s.h.unacked + s.InFlight(), s.snapshots, s.readers)
  }

  /** No stuck writer: pending work has a background call, and a writer only sleeps while there is one. */
  predicate InvSchedule(s: State) {
    && (s.BackgroundRunning() ==> s.scheduled)
    && (!s.bgError && !s.shuttingDown && (s.imm.Some? || s.needsCompaction) ==> s.scheduled)
    && (s.waiting ==> s.scheduled && !s.bgError && s.group.None? && s.writers != [])
    && (s.shuttingDown ==> s.writers == [])
    && (s.l0Full ==> s.needsCompaction)
  }

  ghost predicate InvContents(s: State) {
    InvMemory(s) && InvLogs(s)
  }

  ghost predicate InvFiles(s: State) {
    InvTables(s) && InvManifest(s) && InvRepeats(s) && InvNumbers(s) && InvFlush(s) && InvJob(s)
  }

  ghost predicate InvUse(s: State) {
    InvReaders(s) && InvWhole(s)
  }

  ghost predicate InvWriters(s: State) {
    InvGroup(s) && InvQueue(s)
  }

  ghost predicate InvOpen(s: State) {
    InvContents(s) && InvFiles(s) && InvUse(s) && InvWriters(s) && InvSchedule(s)
  }

  // ----- between a crash and the next Open -----

  /** On disk: the tables of the manifest stand for what was flushed, and with the live logs they hold all
      that was committed, and nothing that was never written. */
  ghost predicate DiskHolds(
      tables: Tables, manifest: Manifest, logs: Logs, logfile: nat, flushed: set<Entry>, floor: nat, extra: set<nat>,
      committed: set<Record>, unacked: set<Record>)
  {
    && extra <= manifest.tables <= tables.Keys
    && StandsFor(TableEntries(tables, manifest.tables - extra), flushed, floor)
    && flushed + TableEntries(tables, extra) <= EntriesIn(committed)
    && EntriesIn(committed) <= flushed + TableEntries(tables, extra) + LiveEntries(logs, manifest.logNumber)
    && AllNewer(TableEntries(tables, extra) + LiveEntries(logs, manifest.logNumber), flushed)
    && LiveRecords(logs, manifest.logNumber) <= committed + unacked
    && AtMost(flushed + TableEntries(tables, extra), manifest.lastSequence) && floor <= manifest.lastSequence
    && LogOrder(logs, manifest.logNumber)
    && manifest.logNumber <= logfile && (forall n | n in logs :: n <= logfile)
    && (logs == map[] || (logfile in logs && AllNewer(EntriesIn(logs[logfile]), TableEntries(tables, extra))))
  }

  ghost predicate InvDisk(s: State) {
    DiskHolds(s.tables, s.manifest, s.logs, s.logfile, s.h.flushed, s.h.floor, s.h.extra, s.h.committed, s.h.unacked)
  }

  ghost predicate Inv(s: State) {
    if s.open then InvOpen(s) else InvDisk(s) && s.group.None?
  }
}
