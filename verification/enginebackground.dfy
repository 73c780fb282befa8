/** The steps of the background thread keep the invariant. */
module EngineBackground {
  import opened Common
  import opened DbFormat
  import opened Store
  import opened CompactionWork
  import opened Engine
  import opened EngineInvariant
  import opened EngineProof

  // ----- garbage collection -----

  lemma KeptTableEntries(tables: Tables, live: set<nat>, numbers: set<nat>)
    requires numbers <= live
    ensures TableEntries(KeptTables(tables, live), numbers) == TableEntries(tables, numbers)
  {
    TableEntriesSame(tables, KeptTables(tables, live), numbers);
  }

  lemma KeptLogRecords(logs: Logs, oldest: nat, end: nat)
    ensures LiveRecords(KeptLogs(logs, oldest), oldest) == LiveRecords(logs, oldest)
    ensures RecordsBetween(KeptLogs(logs, oldest), oldest, end) == RecordsBetween(logs, oldest, end)
  {
    var logs' := KeptLogs(logs, oldest);
    forall r | r in LiveRecords(logs, oldest) ensures r in LiveRecords(logs', oldest) {
      var n :| n in logs && oldest <= n && r in logs[n];
      assert r in logs'[n];
    }
    forall r | r in RecordsBetween(logs, oldest, end) ensures r in RecordsBetween(logs', oldest, end) {
      var n :| n in logs && oldest <= n < end && r in logs[n];
      assert r in logs'[n];
    }
  }

  lemma GarbageContents(s: State)
    requires InvContents(s)
    ensures InvContents(DeleteObsoleteFiles(s))
  {
    KeptLogRecords(s.logs, s.version.logNumber, s.logfile);
  }

  /** With no error pending, the manifest names the current tables: what is collected is not named. */
  ghost predicate Settled(s: State) {
    s.flush.None? && !(s.job.Some? && s.job.value.committing)
  }

  function Live(s: State): set<nat> {
    s.pending + s.version.tables + PinnedTables(s.readers)
  }

  lemma GarbageTables(s: State)
    requires InvTables(s) && InvManifest(s) && Settled(s) && !s.bgError
    ensures InvTables(DeleteObsoleteFiles(s)) && InvManifest(DeleteObsoleteFiles(s))
    ensures s.manifest.tables == s.version.tables
  {
    var tables' := KeptTables(s.tables, Live(s));
    KeptTableEntries(s.tables, Live(s), s.version.tables);
    KeptTableEntries(s.tables, Live(s), s.version.tables - JobInputs(s.job));
    KeptTableEntries(s.tables, Live(s), {});
    assert s.manifest.tables - s.h.extra == s.version.tables;
  }

  lemma GarbageJob(s: State)
    requires InvJob(s) && Settled(s) && !s.bgError
    ensures InvJob(DeleteObsoleteFiles(s))
  {
    if s.job.Some? {
      KeptTableEntries(s.tables, Live(s), s.job.value.inputs);
      KeptTableEntries(s.tables, Live(s), s.version.tables - s.job.value.inputs);
      KeptTableEntries(s.tables, Live(s), s.job.value.outputs);
    }
  }

  lemma GarbageFiles(s: State)
    requires InvFiles(s) && Settled(s)
    ensures InvFiles(DeleteObsoleteFiles(s))
  {
    if !s.bgError {
      GarbageTables(s);
      GarbageJob(s);
    }
  }

  lemma GarbageUse(s: State)
    requires InvUse(s)
    ensures InvUse(DeleteObsoleteFiles(s))
  {
    var s' := DeleteObsoleteFiles(s);
    forall r | r in s.readers ensures ReaderHolds(r, s'.tables, Writing(s.flush, s.job), s.Committed(), s.lastSequence) {
      assert ReaderHolds(r, s.tables, Writing(s.flush, s.job), s.Committed(), s.lastSequence);
      assert r.tables <= PinnedTables(s.readers);
      KeptTableEntries(s.tables, Live(s), r.tables);
    }
  }

  lemma GarbageKeeps(s: State, s': State)
    requires InvContents(s) && InvFiles(s) && InvUse(s) && InvWriters(s) && Settled(s)
    requires s' == DeleteObsoleteFiles(s)
    ensures InvContents(s') && InvFiles(s') && InvUse(s') && InvWriters(s')
  {
    GarbageContents(s);
    GarbageFiles(s);
    GarbageUse(s);
    WritersUntouched(s, s');
  }

  // ----- writing a table file -----

  lemma FileWrittenTables(s: State, n: nat, content: set<Entry>)
    requires InvTables(s) && InvManifest(s) && InvRepeats(s) && n !in s.version.tables + s.manifest.tables
    ensures InvTables(s.(tables := s.tables[n := content])) && InvManifest(s.(tables := s.tables[n := content]))
    ensures InvRepeats(s.(tables := s.tables[n := content]))
  {
    var tables' := s.tables[n := content];
    TableEntriesSame(s.tables, tables', s.version.tables);
    TableEntriesSame(s.tables, tables', s.manifest.tables - s.h.extra);
    TableEntriesSame(s.tables, tables', s.h.extra);
    TableEntriesSame(s.tables, tables', s.h.dup);
    TableEntriesSame(s.tables, tables', s.version.tables - JobInputs(s.job));
  }

  lemma FileWrittenJob(s: State, n: nat, content: set<Entry>)
    requires InvJob(s) && n !in s.version.tables && n !in JobOutputs(s.job) && (s.job.Some? ==> !s.job.value.committing)
    ensures InvJob(s.(tables := s.tables[n := content]))
  {
    if s.job.Some? {
      TableEntriesSame(s.tables, s.tables[n := content], s.job.value.outputs);
      TableEntriesSame(s.tables, s.tables[n := content], s.job.value.inputs);
      TableEntriesSame(s.tables, s.tables[n := content], s.version.tables - s.job.value.inputs);
    }
  }

  lemma FileWrittenUse(s: State, n: nat, content: set<Entry>)
    requires InvUse(s) && n in Writing(s.flush, s.job)
    ensures InvUse(s.(tables := s.tables[n := content]))
  {
    var tables' := s.tables[n := content];
    forall r | r in s.readers ensures ReaderHolds(r, tables', Writing(s.flush, s.job), s.Committed(), s.lastSequence) {
      assert ReaderHolds(r, s.tables, Writing(s.flush, s.job), s.Committed(), s.lastSequence);
      TableEntriesSame(s.tables, tables', r.tables);
    }
  }

  // ----- flushing the immutable memtable -----

  /** The files being written may change, as long as no reader has them open. */
  lemma WritingChanges(s: State, s': State)
    requires InvUse(s) && s' == s.(nextFile := s'.nextFile, pending := s'.pending, flush := s'.flush, job := s'.job)
    requires Writing(s'.flush, s'.job) - Writing(s.flush, s.job) !! s.tables.Keys
    requires s'.job.Some? ==> forall i | 0 <= i < |s.snapshots| :: s'.job.value.snapshot <= s.snapshots[i]
    ensures InvUse(s')
  {
    forall r | r in s.readers ensures ReaderHolds(r, s.tables, Writing(s'.flush, s'.job), s.Committed(), s.lastSequence) {
      assert ReaderHolds(r, s.tables, Writing(s.flush, s.job), s.Committed(), s.lastSequence);
    }
    assert s'.h.committed + s'.h.unacked + s'.InFlight() == s.h.committed + s.h.unacked + s.InFlight();
  }

  lemma StartFlushKeeps(s: State, s': State)
    requires s.open && InvOpen(s) && FlushEnabled(s, StartFlush)
    requires s' == FlushStarted(s)
    ensures InvOpen(s')
  {
    ContentsUntouched(s, s');
    WritersUntouched(s, s');
    WritingChanges(s, s');
  }

  lemma ImmWritten(s: State, t: State)
    requires InvFiles(s) && InvUse(s) && FlushEnabled(s, BuildTable)
    requires t == s.(tables := if s.ImmEntries() == {} then s.tables else s.tables[s.flush.value.number := s.ImmEntries()])
    ensures InvFiles(t) && InvUse(t)
  {
    var n := s.flush.value.number;
    if s.ImmEntries() != {} {
      FileWrittenTables(s, n, s.ImmEntries());
      FileWrittenJob(s, n, s.ImmEntries());
      FileWrittenUse(s, n, s.ImmEntries());
      assert t.tables.Keys == s.tables.Keys + {n};
    }
  }

  lemma BuildTableFiles(s: State, s': State)
    requires InvFiles(s) && InvUse(s) && FlushEnabled(s, BuildTable)
    requires s' == TableBuilt(s)
    ensures InvFiles(s') && InvUse(s')
  {
    var t := s.(tables := s'.tables);
    ImmWritten(s, t);
    UseUntouched(t, s');
  }

  lemma BuildTableKeeps(s: State, s': State)
    requires s.open && InvOpen(s) && FlushEnabled(s, BuildTable)
    requires s' == TableBuilt(s)
    ensures InvOpen(s')
  {
    BuildTableFiles(s, s');
    ContentsUntouched(s, s');
    WritersUntouched(s, s');
  }

  /** The end of a background call, or of a nested flush, touches no data. */
  lemma EndKeeps(s: State, s': State)
    requires InvContents(s) && InvFiles(s) && InvUse(s) && InvWriters(s)
    requires s' == s.(scheduled := s'.scheduled, waiting := s'.waiting)
    ensures InvContents(s') && InvFiles(s') && InvUse(s') && InvWriters(s')
  {
    ContentsUntouched(s, s');
    FilesUntouched(s, s');
    UseUntouched(s, s');
    WritersUntouched(s, s');
  }

  lemma FlushFailsFiles(s: State, t: State)
    requires InvFiles(s) && FlushEnabled(s, FlushFails)
    requires t == RecordBackgroundError(s.(pending := s.pending - {s.flush.value.number}, flush := None))
    ensures InvFiles(t)
  {
  }

  lemma FlushFailsKeeps(s: State, t: State, s': State)
    requires s.open && InvOpen(s) && FlushEnabled(s, FlushFails)
    requires t == RecordBackgroundError(s.(pending := s.pending - {s.flush.value.number}, flush := None))
    requires s' == AfterFlush(t)
    ensures InvOpen(s')
  {
    FlushFailsFiles(s, t);
    ContentsUntouched(s, t);
    WritersUntouched(s, t);
    UseUntouched(s, t);
    EndKeeps(t, s');
  }

  lemma CommitFlushFiles(s: State)
    requires InvFiles(s) && InvContents(s) && FlushEnabled(s, CommitFlush)
    ensures InvFiles(FlushCommitting(s))
  {
  }

  lemma CommitFlushKeeps(s: State, s': State)
    requires s.open && InvOpen(s) && FlushEnabled(s, CommitFlush)
    requires s' == FlushCommitting(s)
    ensures InvOpen(s')
  {
    CommitFlushFiles(s);
    ContentsUntouched(s, s');
    WritersUntouched(s, s');
    UseUntouched(s, s');
  }

  /** The manifest now names the table of the immutable memtable, beyond what it named before. */
  lemma FlushWrittenTables(s: State)
    requires InvTables(s) && InvManifest(s) && InvFlush(s) && FlushEnabled(s, WriteFlushManifest)
    ensures InvTables(FlushWritten(s))
  {
    var s' := FlushWritten(s);
    var adds := s.commit.value.edit.adds;
    assert s'.manifest.tables - s'.h.extra == s.manifest.tables - s.h.extra;
    TableEntriesUnion(s.tables, s.h.extra, adds);
    assert TableEntries(s.tables, adds) == s.imm.value;
  }

  lemma FlushWrittenRest(s: State)
    requires InvTables(s) && InvManifest(s) && InvFlush(s) && InvJob(s) && FlushEnabled(s, WriteFlushManifest)
    ensures InvManifest(FlushWritten(s)) && InvFlush(FlushWritten(s)) && InvJob(FlushWritten(s))
  {
    var s' := FlushWritten(s);
    assert s'.manifest.tables - s'.h.extra == s.manifest.tables - s.h.extra;
  }

  lemma WriteFlushManifestKeeps(s: State, s': State)
    requires s.open && InvOpen(s) && FlushEnabled(s, WriteFlushManifest)
    requires s' == FlushWritten(s)
    ensures InvOpen(s')
  {
    FlushWrittenTables(s);
    FlushWrittenRest(s);
    ContentsUntouched(s, s');
    WritersUntouched(s, s');
    UseUntouched(s, s');
  }

  // ----- installing a flush -----

  lemma InstallMemory(
      logs: Logs, logfile: nat, oldest: nat, flushed: set<Entry>, imm: set<Entry>, mem: set<Entry>,
      committed: set<Entry>, inserted: set<Entry>)
    requires MemoryHolds(logs, logfile, oldest, flushed, imm, mem, committed, inserted)
    ensures MemoryHolds(logs, logfile, logfile, flushed + imm, {}, mem, committed, inserted)
  {
  }

  lemma InstallLogs(
      logs: Logs, logfile: nat, oldest: nat, flushed: set<Entry>, imm: set<Entry>, committed: set<Record>,
      unacked: set<Record>, logged: set<Record>, lastSequence: nat)
    requires LogsHold(logs, oldest, flushed, committed, unacked, logged, lastSequence)
    requires oldest <= logfile && logfile in logs && forall n | n in logs :: n <= logfile
    requires imm <= EntriesIn(RecordsBetween(logs, oldest, logfile))
    ensures LogsHold(logs, logfile, flushed + imm, committed, unacked, logged, lastSequence)
  {
    assert LiveRecords(logs, logfile) <= LiveRecords(logs, oldest);
    EntriesInMono(LiveRecords(logs, logfile), LiveRecords(logs, oldest));
    forall e, f | e in LiveEntries(logs, logfile) && f in imm ensures f.sequence < e.sequence {
      NewerThanImm(logs, logfile, oldest, e, f);
    }
  }

  lemma NewerThanImm(logs: Logs, logfile: nat, oldest: nat, e: Entry, f: Entry)
    requires LogOrder(logs, oldest) && forall n | n in logs :: n <= logfile
    requires e in LiveEntries(logs, logfile) && f in EntriesIn(RecordsBetween(logs, oldest, logfile))
    ensures f.sequence < e.sequence
  {
    var r :| r in LiveRecords(logs, logfile) && e in EntriesOf(r);
    var q :| q in RecordsBetween(logs, oldest, logfile) && f in EntriesOf(q);
    var m :| m in logs && logfile <= m && r in logs[m];
    var n :| n in logs && oldest <= n < logfile && q in logs[n];
    assert AllNewer(EntriesIn(logs[m]), EntriesIn(logs[n]));
  }

  lemma FlushInstalledContents(s: State, needs: bool, l0: bool)
    requires InvContents(s) && InvFlush(s) && FlushEnabled(s, FinishFlush(needs, l0))
    ensures InvContents(FlushInstalled(s, needs, l0))
  {
    InstallMemory(s.logs, s.logfile, s.version.logNumber, s.h.flushed, s.ImmEntries(), s.mem, s.Committed(), Inserted(s.group));
    InstallLogs(s.logs, s.logfile, s.version.logNumber, s.h.flushed, s.ImmEntries(), s.h.committed, s.h.unacked,
                Logged(s.group), s.lastSequence);
  }

  /** What stood for the flushed history stands for the longer one once the new table is added. */
  lemma StandsForMore(entries: set<Entry>, flushed: set<Entry>, floor: nat, imm: set<Entry>)
    requires StandsFor(entries, flushed, floor) && AllNewer(imm, flushed)
    ensures StandsFor(entries + imm, flushed + imm, floor)
  {
    forall t | t >= floor ensures SameAt(entries + imm, flushed + imm, t) {
      SameUnderNewer(entries, flushed, imm, t);
      assert imm + entries == entries + imm && imm + flushed == flushed + imm;
    }
  }

  lemma FlushInstalledTables(s: State, needs: bool, l0: bool)
    requires InvTables(s) && InvFlush(s) && FlushEnabled(s, FinishFlush(needs, l0))
    requires AllNewer(s.ImmEntries(), s.h.flushed)
    ensures InvTables(FlushInstalled(s, needs, l0))
  {
    var s' := FlushInstalled(s, needs, l0);
    var adds := s.commit.value.edit.adds;
    var imm := s.imm.value;
    assert TableEntries(s.tables, adds) == imm == TableEntries(s.tables, s.h.extra);
    TableEntriesUnion(s.tables, s.version.tables, adds);
    TableEntriesUnion(s.tables, s.manifest.tables - s.h.extra, s.h.extra);
    assert s'.version.tables == s.version.tables + adds;
    assert s'.manifest.tables - s'.h.extra == (s.manifest.tables - s.h.extra) + s.h.extra;
    StandsForMore(TableEntries(s.tables, s.version.tables), s.h.flushed, s.h.floor, imm);
    StandsForMore(TableEntries(s.tables, s.manifest.tables - s.h.extra), s.h.flushed, s.h.floor, imm);
    assert TableEntries(s.tables, {}) == {};
  }

  /** The new table holds only entries newer than those of all current tables. */
  lemma FlushInstalledRepeats(s: State, needs: bool, l0: bool)
    requires InvTables(s) && InvFlush(s) && InvRepeats(s) && FlushEnabled(s, FinishFlush(needs, l0))
    requires AllNewer(s.ImmEntries(), s.h.flushed)
    ensures InvRepeats(FlushInstalled(s, needs, l0))
  {
    var s' := FlushInstalled(s, needs, l0);
    var number := s.flush.value.number;
    forall n, e | n in s.version.tables && n in s.tables && e in s.tables[n] ensures e !in s.imm.value {
      assert e in TableEntries(s.tables, s.version.tables);
    }
    assert forall n | n in s'.version.tables :: n in s.version.tables || (n == number && s.tables[n] == s.imm.value);
  }

  lemma FlushInstalledManifest(s: State, needs: bool, l0: bool)
    requires InvTables(s) && InvManifest(s) && InvFlush(s) && FlushEnabled(s, FinishFlush(needs, l0))
    requires s.job.Some? ==> s.job.value.inputs <= s.version.tables
    ensures InvManifest(FlushInstalled(s, needs, l0))
  {
    var s' := FlushInstalled(s, needs, l0);
    var adds := s.commit.value.edit.adds;
    var before := s.version.tables - JobInputs(s.job);
    assert s'.version.tables - JobInputs(s.job) == before + adds;
    TableEntriesUnion(s.tables, before, adds);
    TableEntriesUnion(s.tables, s.h.dup, s.h.extra - adds);
    assert TableEntries(s.tables, s.h.extra - adds) <= TableEntries(s.tables, adds);
    assert s.manifest.tables == s.version.tables + s.h.dup + s.h.extra;
    assert s'.manifest.tables == s'.version.tables + s'.h.dup;
  }

  lemma FlushInstalledJob(s: State, needs: bool, l0: bool)
    requires InvTables(s) && InvFlush(s) && InvJob(s) && FlushEnabled(s, FinishFlush(needs, l0))
    requires AllNewer(s.ImmEntries(), s.h.flushed)
    ensures InvJob(FlushInstalled(s, needs, l0))
  {
    if s.job.Some? {
      var adds := s.commit.value.edit.adds;
      var j := s.job.value;
      assert FlushInstalled(s, needs, l0).version.tables - j.inputs == (s.version.tables - j.inputs) + adds;
      TableEntriesUnion(s.tables, s.version.tables - j.inputs, adds);
      assert TableEntries(s.tables, adds) == s.imm.value;
    }
  }

  lemma FlushInstalledKeeps(s: State, needs: bool, l0: bool, t: State)
    requires s.open && InvOpen(s) && FlushEnabled(s, FinishFlush(needs, l0))
    requires t == FlushInstalled(s, needs, l0)
    ensures InvContents(t) && InvFiles(t) && InvUse(t) && InvWriters(t)
  {
    FlushInstalledContents(s, needs, l0);
    FlushInstalledTables(s, needs, l0);
    FlushInstalledManifest(s, needs, l0);
    FlushInstalledRepeats(s, needs, l0);
    FlushInstalledJob(s, needs, l0);
    WritersUntouched(s, t);
    UseUntouched(s, t);
  }

  lemma AbortFlushFiles(s: State, t: State)
    requires InvFiles(s) && FlushEnabled(s, AbortFlush)
    requires t == RecordBackgroundError(s.(flush := None, commit := None))
    ensures InvFiles(t)
  {
  }

  lemma AbortFlushData(s: State, t: State)
    requires s.open && InvOpen(s) && FlushEnabled(s, AbortFlush)
    requires t == RecordBackgroundError(s.(flush := None, commit := None))
    ensures InvContents(t) && InvFiles(t) && InvUse(t) && InvWriters(t)
  {
    AbortFlushFiles(s, t);
    ContentsUntouched(s, t);
    WritersUntouched(s, t);
    UseUntouched(s, t);
  }

  lemma FinishFlushKeeps(s: State, needs: bool, l0: bool, t: State, u: State, s': State)
    requires s.open && InvOpen(s) && FlushEnabled(s, FinishFlush(needs, l0))
    requires t == FlushInstalled(s, needs, l0) && u == DeleteObsoleteFiles(t) && s' == AfterFlush(u)
    ensures InvOpen(s')
  {
    FlushInstalledKeeps(s, needs, l0, t);
    GarbageKeeps(t, u);
    EndKeeps(u, s');
  }

  lemma AbortFlushKeeps(s: State, t: State, s': State)
    requires s.open && InvOpen(s) && FlushEnabled(s, AbortFlush)
    requires t == RecordBackgroundError(s.(flush := None, commit := None)) && s' == AfterFlush(t)
    ensures InvOpen(s')
  {
    AbortFlushData(s, t);
    EndKeeps(t, s');
  }

  lemma FlushKeeps(s: State, step: FlushStep, s': State)
    requires s.open && InvOpen(s) && FlushEnabled(s, step)
    requires s' == ApplyFlush(s, step)
    ensures s'.open && InvOpen(s')
  {
    match step
    case StartFlush => StartFlushKeeps(s, s');
    case BuildTable => BuildTableKeeps(s, s');
    case FlushFails => FlushFailsKeeps(s, RecordBackgroundError(s.(pending := s.pending - {s.flush.value.number}, flush := None)), s');
    case CommitFlush => CommitFlushKeeps(s, s');
    case WriteFlushManifest => WriteFlushManifestKeeps(s, s');
    case FinishFlush(needs, l0) =>
      var t := FlushInstalled(s, needs, l0);
      FinishFlushKeeps(s, needs, l0, t, DeleteObsoleteFiles(t), s');
    case AbortFlush => AbortFlushKeeps(s, RecordBackgroundError(s.(flush := None, commit := None)), s');
  }
}
