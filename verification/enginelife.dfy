/** Readers, crashes and recovery keep the invariant. */
module EngineLife {
  import opened Common
  import opened DbFormat
  import opened Store
  import opened CompactionWork
  import opened Engine
  import opened EngineInvariant
  import opened EngineProof
  import opened EngineBackground
  import opened EngineWriters
  import opened EngineJob

  // ----- reads -----

  /** What reads consult answers as the committed history does, for every snapshot still in use. */
  lemma ReadableIsCommitted(s: State, t: nat)
    requires InvMemory(s) && InvTables(s) && InvGroup(s)
    requires s.h.floor <= t <= s.lastSequence
    ensures SameAt(s.Readable(), s.Committed(), t)
  {
    var memory := s.ImmEntries() + s.mem;
    var inTables := TableEntries(s.tables, s.version.tables);
    SameUnderNewer(inTables, s.h.flushed, memory, t);
    assert s.Readable() == memory + inTables;
    assert s.Committed() + Inserted(s.group) == memory + s.h.flushed;
    if s.group.Some? {
      RecordRange(s.group.value.record, s.group.value.inserted);
    }
    UnseenEntries(s.Committed(), Inserted(s.group), t);
  }

  // ----- snapshots and readers -----

  /** A snapshot at the current sequence number sees every group entirely or not at all, even while a leader
      is in the middle of inserting its own. */
  lemma CurrentSeesWhole(s: State, r: Record)
    requires InvLogs(s) && InvGroup(s)
    requires r in s.h.committed + s.h.unacked + s.InFlight()
    ensures Whole(r, s.lastSequence)
  {
    RecordRange(r, |r.ops|);
    if r in s.h.committed {
      EntriesInMono({r}, s.h.committed);
      assert EntriesIn({r}) == EntriesOf(r);
    } else if r in s.h.unacked {
      EntriesInMono({r}, s.h.unacked);
      assert EntriesIn({r}) == EntriesOf(r);
    }
  }

  lemma GetSnapshotUse(s: State, s': State)
    requires InvUse(s) && InvTables(s) && InvJob(s) && InvLogs(s) && InvGroup(s)
    requires s' == s.(snapshots := s.snapshots + [s.lastSequence])
    ensures InvUse(s')
  {
    assert s'.InFlight() == s.InFlight();
    forall r | r in s.h.committed + s.h.unacked + s.InFlight()
      ensures forall i | 0 <= i < |s'.snapshots| :: Whole(r, s'.snapshots[i])
    {
      CurrentSeesWhole(s, r);
    }
  }

  lemma ReleaseSnapshotUse(s: State, i: nat, s': State)
    requires InvUse(s) && i < |s.snapshots|
    requires s' == s.(snapshots := s.snapshots[..i] + s.snapshots[i + 1..])
    ensures InvUse(s')
  {
    assert s'.InFlight() == s.InFlight();
    assert forall k | 0 <= k < |s'.snapshots| :: s'.snapshots[k] == s.snapshots[if k < i then k else k + 1];
  }

  lemma OpenReaderUse(s: State, t: nat, r: Reader, s': State)
    requires InvUse(s) && InvContents(s) && InvTables(s) && InvFlush(s) && InvJob(s) && InvGroup(s)
    requires t == s.lastSequence || t in s.snapshots
    requires r == Reader(t, s.mem + s.ImmEntries(), s.version.tables) && s' == s.(readers := s.readers + multiset{r})
    ensures InvUse(s')
  {
    assert s'.InFlight() == s.InFlight();
    ReadableIsCommitted(s, t);
    assert r.memory + TableEntries(s.tables, r.tables) == s.Readable();
    assert ReaderHolds(r, s.tables, Writing(s.flush, s.job), s.Committed(), s.lastSequence);
    forall q | q in s.h.committed + s.h.unacked + s.InFlight() ensures Whole(q, t) {
      CurrentSeesWhole(s, q);
    }
  }

  lemma CloseReaderUse(s: State, r: Reader, s': State)
    requires InvUse(s) && s' == s.(readers := s.readers - multiset{r})
    ensures InvUse(s')
  {
    assert s'.InFlight() == s.InFlight();
    assert forall q | q in s'.readers :: q in s.readers;
  }

  lemma ReaderStepUse(s: State, step: ReaderStep, s': State)
    requires s.open && InvOpen(s) && ReaderEnabled(s, step)
    requires s' == ApplyReader(s, step)
    ensures InvUse(s')
  {
    match step
    case GetSnapshot => GetSnapshotUse(s, s');
    case ReleaseSnapshot(i) => ReleaseSnapshotUse(s, i, s');
    case OpenReader(t) => OpenReaderUse(s, t, Reader(t, s.mem + s.ImmEntries(), s.version.tables), s');
    case CloseReader(r) => CloseReaderUse(s, r, s');
    case _ => UseUntouched(s, s');
  }

  lemma ReaderStepRest(s: State, step: ReaderStep, s': State)
    requires s.open && InvContents(s) && InvFiles(s) && InvWriters(s) && InvSchedule(s) && ReaderEnabled(s, step)
    requires s' == ApplyReader(s, step)
    ensures s'.open && InvContents(s') && InvFiles(s') && InvWriters(s') && InvSchedule(s')
  {
    ContentsUntouched(s, s');
    WritersUntouched(s, s');
    FilesUntouched(s, s');
  }

  lemma ReaderKeeps(s: State, step: ReaderStep, s': State)
    requires s.open && InvOpen(s) && ReaderEnabled(s, step)
    requires s' == ApplyReader(s, step)
    ensures s'.open && InvOpen(s')
  {
    ReaderStepUse(s, step, s');
    ReaderStepRest(s, step, s');
  }

  // ----- crash -----

  lemma LiveFrom(logs: Logs, first: nat, first': nat)
    requires first <= first'
    ensures LiveRecords(logs, first') <= LiveRecords(logs, first)
    ensures LiveEntries(logs, first') <= LiveEntries(logs, first)
  {
    EntriesInMono(LiveRecords(logs, first'), LiveRecords(logs, first));
  }

  /** Everything committed is in the tables of the manifest or in a log it still names. */
  lemma CommittedIsOnDisk(s: State)
    requires InvContents(s) && InvTables(s)
    ensures s.Committed() <= s.h.flushed + TableEntries(s.tables, s.h.extra) + LiveEntries(s.logs, s.manifest.logNumber)
  {
    var first := s.manifest.logNumber;
    assert s.logs[s.logfile] <= LiveRecords(s.logs, first);
    EntriesInMono(s.logs[s.logfile], LiveRecords(s.logs, first));
    if first == s.version.logNumber {
      assert RecordsBetween(s.logs, first, s.logfile) <= LiveRecords(s.logs, first);
      EntriesInMono(RecordsBetween(s.logs, first, s.logfile), LiveRecords(s.logs, first));
    }
  }

  lemma NewestLogIsNewer(s: State)
    requires InvContents(s) && InvTables(s)
    ensures AllNewer(EntriesIn(s.logs[s.logfile]), TableEntries(s.tables, s.h.extra))
  {
    assert s.logs[s.logfile] <= LiveRecords(s.logs, s.logfile);
    EntriesInMono(s.logs[s.logfile], LiveRecords(s.logs, s.logfile));
    forall e, f | e in EntriesIn(s.logs[s.logfile]) && f in TableEntries(s.tables, s.h.extra)
      ensures f.sequence < e.sequence
    {
      NewerThanImm(s.logs, s.logfile, s.version.logNumber, e, f);
    }
  }

  /** Whatever the store was doing, a crash leaves on disk what recovery needs. */
  lemma CrashKeeps(s: State, s': State)
    requires s.open && InvContents(s) && InvTables(s)
    requires s' == Crashed(s)
    ensures !s'.open && InvDisk(s') && s'.group.None?
  {
    CommittedIsOnDisk(s);
    NewestLogIsNewer(s);
    LiveFrom(s.logs, s.version.logNumber, s.manifest.logNumber);
    assert Logged(s.group) <= s.InFlight();
    assert s.Committed() == EntriesIn(s'.h.committed);
  }

  /** Reading the tables of the manifest and the logs it needs finds what was committed, and what is in those logs. */
  lemma DiskAnswers(s: State, t: nat)
    requires InvDisk(s) && s.h.floor <= t
    ensures SameAt(s.OnDisk(), s.Committed() + LiveEntries(s.logs, s.manifest.logNumber), t)
  {
    var base := TableEntries(s.tables, s.manifest.tables - s.h.extra);
    var newer := TableEntries(s.tables, s.h.extra) + LiveEntries(s.logs, s.manifest.logNumber);
    SameUnderNewer(base, s.h.flushed, newer, t);
    TableEntriesUnion(s.tables, s.manifest.tables - s.h.extra, s.h.extra);
    assert s.manifest.tables == (s.manifest.tables - s.h.extra) + s.h.extra;
    assert s.OnDisk() == newer + base;
    assert s.Committed() + LiveEntries(s.logs, s.manifest.logNumber) == newer + s.h.flushed;
  }

  /** A file that the manifest does not name may come or go. */
  lemma OtherTableKeeps(s: State, n: nat, s': State)
    requires !s.open && InvDisk(s) && n !in s.manifest.tables
    requires s' == s.(tables := s'.tables) && s'.tables.Keys + {n} == s.tables.Keys + {n}
    requires forall k | k in s.tables && k != n :: s'.tables[k] == s.tables[k]
    ensures InvDisk(s')
  {
    TableEntriesSame(s.tables, s'.tables, s.manifest.tables - s.h.extra);
    TableEntriesSame(s.tables, s'.tables, s.h.extra);
  }

  /** A new log is empty, and the last one. */
  lemma LeaveLogKeeps(s: State, n: nat, s': State)
    requires !s.open && InvDisk(s) && LifeEnabled(s, LeaveLog(n))
    requires s' == s.(logs := s.logs[n := {}], logfile := n)
    ensures InvDisk(s')
  {
    NewLog(s.logs, n, s.manifest.logNumber);
    assert EntriesIn({}) == {};
    forall k, m | k in s'.logs && m in s'.logs && s.manifest.logNumber <= k < m
      ensures AllNewer(EntriesIn(s'.logs[m]), EntriesIn(s'.logs[k]))
    {
      assert m != n ==> AllNewer(EntriesIn(s.logs[m]), EntriesIn(s.logs[k]));
    }
  }

  lemma LoseLogKeeps(s: State, n: nat, s': State)
    requires !s.open && InvDisk(s) && n < s.manifest.logNumber
    requires s' == s.(logs := s.logs - {n})
    ensures InvDisk(s')
  {
    forall r | r in LiveRecords(s.logs, s.manifest.logNumber) ensures r in LiveRecords(s'.logs, s.manifest.logNumber) {
      var m :| m in s.logs && s.manifest.logNumber <= m && r in s.logs[m];
      assert r in s'.logs[m];
    }
    assert LiveRecords(s'.logs, s.manifest.logNumber) == LiveRecords(s.logs, s.manifest.logNumber);
  }

  // ----- recovery -----

  /** What stays in the memtable is newer than everything in tables. */
  lemma ReplayedMemory(s: State, r: Recovery)
    requires InvDisk(s) && CanReopen(s, r)
    ensures AllNewer(r.memory, s.h.flushed + TableEntries(s.tables, s.h.extra) + r.Entries())
  {
    if r.log in s.logs {
      assert r.log == s.logfile;
      forall e, f | e in r.memory && f in r.Entries() ensures f.sequence < e.sequence {
        assert s.logs[r.log] <= LiveRecords(s.logs, r.log);
        EntriesInMono(s.logs[r.log], LiveRecords(s.logs, r.log));
        NewerThanImm(s.logs, r.log, s.manifest.logNumber, e, f);
      }
    }
  }

  /** The logs still needed after recovery hold what the memtable holds. */
  lemma ReplayedLive(s: State, r: Recovery, logs': Logs, first: nat)
    requires InvDisk(s) && CanReopen(s, r)
    requires logs' == (if r.log in s.logs then s.logs else s.logs[r.log := {}])
    requires first == (if r.save then r.log else s.manifest.logNumber)
    ensures LiveEntries(logs', first) == r.memory
    ensures LiveRecords(logs', first) <= LiveRecords(s.logs, s.manifest.logNumber)
  {
    if r.log !in s.logs {
      NewLog(s.logs, r.log, first);
      NewLog(s.logs, r.log, s.manifest.logNumber);
    }
    if r.save {
      assert LiveRecords(logs', r.log) == logs'[r.log];
      assert EntriesIn({}) == {};
    } else {
      assert r.Entries() == {};
    }
  }

  lemma ReplayedRange(s: State, r: Recovery)
    requires InvDisk(s) && CanReopen(s, r)
    ensures AtMost(s.Committed() + LiveEntries(s.logs, s.manifest.logNumber), r.lastSequence)
  {
    forall e | e in LiveEntries(s.logs, s.manifest.logNumber) ensures e.sequence <= r.lastSequence {
      var q :| q in LiveRecords(s.logs, s.manifest.logNumber) && e in EntriesOf(q);
      RecordRange(q, |q.ops|);
    }
  }

  lemma ReplayedCommitted(s: State, r: Recovery, s': State)
    requires InvDisk(s) && CanReopen(s, r) && s' == Reopened(s, r)
    ensures s'.Committed() == s.Committed() + LiveEntries(s.logs, s.manifest.logNumber)
    ensures s'.h.flushed + r.memory == s'.Committed()
  {
    EntriesInUnion(s.h.committed, LiveRecords(s.logs, s.manifest.logNumber));
  }

  lemma ReopenedContents(s: State, r: Recovery, s': State)
    requires InvDisk(s) && CanReopen(s, r) && s' == Reopened(s, r)
    ensures InvContents(s')
  {
    ReplayedMemory(s, r);
    ReplayedLive(s, r, s'.logs, s'.version.logNumber);
    ReplayedCommitted(s, r, s');
    ReplayedRange(s, r);
    assert EntriesIn({}) == {};
    assert r.memory <= EntriesIn(s'.logs[r.log]);
    forall n, m | n in s'.logs && m in s'.logs && s'.version.logNumber <= n < m
      ensures AllNewer(EntriesIn(s'.logs[m]), EntriesIn(s'.logs[n]))
    {
      assert m in s.logs ==> AllNewer(EntriesIn(s.logs[m]), EntriesIn(s.logs[n]));
    }
  }

  lemma ReopenedEntries(s: State, r: Recovery, s': State)
    requires InvDisk(s) && CanReopen(s, r) && s' == Reopened(s, r)
    ensures s'.version.tables == s'.manifest.tables <= s'.tables.Keys
    ensures TableEntries(s'.tables, s'.version.tables) ==
            TableEntries(s.tables, s.manifest.tables - s.h.extra) + (TableEntries(s.tables, s.h.extra) + r.Entries())
  {
    var base, extra, written := s.manifest.tables - s.h.extra, s.h.extra, r.tables.Keys;
    TableEntriesSame(s.tables, s'.tables, base);
    TableEntriesSame(s.tables, s'.tables, extra);
    TableEntriesSame(r.tables, s'.tables, written);
    TableEntriesUnion(s'.tables, base, extra);
    TableEntriesUnion(s'.tables, base + extra, written);
    assert s'.manifest.tables == base + extra + written;
  }

  lemma ReopenedTables(s: State, r: Recovery, s': State)
    requires InvDisk(s) && CanReopen(s, r) && s' == Reopened(s, r)
    ensures InvTables(s') && InvManifest(s')
  {
    var replayed := TableEntries(s.tables, s.h.extra) + r.Entries();
    ReopenedEntries(s, r, s');
    StandsForMore(TableEntries(s.tables, s.manifest.tables - s.h.extra), s.h.flushed, s.h.floor, replayed);
    assert s'.h.flushed == s.h.flushed + replayed;
    ReplayedRange(s, r);
    assert s'.manifest.tables - {} == s'.manifest.tables;
    assert TableEntries(s'.tables, {}) == {};
  }

  /** Opening ended after the manifest was rewritten: what is left is as after a crash of the opened store. */
  lemma LeaveManifestKeeps(s: State, r: Recovery, t: State, s': State)
    requires InvDisk(s) && CanReopen(s, r)
    requires t == Reopened(s, r) && s' == Crashed(t)
    ensures !s'.open && InvDisk(s') && s'.group.None?
  {
    ReopenedContents(s, r, t);
    ReopenedTables(s, r, t);
    CrashKeeps(t, s');
  }

  lemma ReopenedRest(s: State, r: Recovery, t: State, u: State)
    requires CanReopen(s, r) && t == Reopened(s, r) && u == DeleteObsoleteFiles(t)
    requires InvTables(t)
    ensures InvNumbers(u) && InvFlush(u) && InvJob(u) && InvUse(u) && InvWriters(u)
    ensures u.open && !u.bgError && !u.BackgroundRunning() && !u.waiting && (u.l0Full ==> u.needsCompaction)
    ensures !u.shuttingDown && !u.scheduled
  {
    assert PinnedTables(multiset{}) == {};
    assert u.tables.Keys <= t.version.tables <= s.manifest.tables + r.tables.Keys;
    forall n | n in u.logs ensures n <= r.log {
      assert n in s.logs || n == r.log;
    }
  }

  lemma OpenKeeps(s: State, r: Recovery, t: State, u: State, s': State)
    requires InvDisk(s) && CanReopen(s, r)
    requires t == Reopened(s, r) && u == DeleteObsoleteFiles(t) && s' == MaybeScheduleCompaction(u)
    ensures s'.open && InvOpen(s')
  {
    ReopenedContents(s, r, t);
    ReopenedTables(s, r, t);
    GarbageTables(t);
    GarbageContents(t);
    ReopenedRest(s, r, t, u);
    EndKeeps(u, s');
  }
}
