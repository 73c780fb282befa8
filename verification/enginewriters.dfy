/** The steps of writers keep the invariant. */
module EngineWriters {
  import opened Common
  import opened DbFormat
  import opened Store
  import opened CompactionWork
  import opened Engine
  import opened EngineInvariant
  import opened EngineProof

  // ----- Enqueue, Wait, RejectFront, LetNullFrontGo -----

  lemma MoreWritersBehind(g: Group, writers: seq<Writer>, w: Writer, lastSequence: nat, logs: Logs, logfile: nat)
    requires GroupHolds(g, writers, lastSequence, logs, logfile)
    ensures GroupHolds(g, writers + [w], lastSequence, logs, logfile)
  {
    assert (writers + [w])[..g.size] == writers[..g.size];
  }

  lemma EnqueueKeeps(s: State, w: Writer, s': State)
    requires s.open && InvOpen(s) && !s.shuttingDown
    requires s' == ApplyWriter(s, Enqueue(w))
    ensures InvOpen(s')
  {
    FilesUntouched(s, s');
    ContentsUntouched(s, s');
    UseUntouched(s, s');
    EnqueueWriters(s, w);
  }

  lemma EnqueueWriters(s: State, w: Writer)
    requires InvWriters(s) && !s.shuttingDown
    ensures InvWriters(ApplyWriter(s, Enqueue(w)))
  {
    if s.group.Some? {
      MoreWritersBehind(s.group.value, s.writers, w, s.lastSequence, s.logs, s.logfile);
    }
    assert MembersOf(s.h.outcomes) + s.writers + [w] == MembersOf(s.h.outcomes) + (s.writers + [w]);
  }

  lemma WaitKeeps(s: State, s': State)
    requires s.open && InvOpen(s) && WriterEnabled(s, Wait)
    requires s' == s.(waiting := true)
    ensures InvOpen(s')
  {
    FilesUntouched(s, s');
    ContentsUntouched(s, s');
    UseUntouched(s, s');
    WritersUntouched(s, s');
  }

  /** Consecutive writers leave the queue with an outcome that is good. */
  lemma OutcomeAppended(
      arrived: seq<Writer>, outcomes: seq<Outcome>, writers: seq<Writer>, base: nat, lastSequence: nat,
      committed: set<Record>, unacked: set<Record>, o: Outcome, committed': set<Record>, unacked': set<Record>)
    requires QueueHolds(arrived, outcomes, writers, base, lastSequence, committed, unacked)
    requires committed <= committed' && unacked <= unacked'
    requires |o.members| <= |writers| && o.members == writers[..|o.members|]
    requires GoodOutcome(o, lastSequence + 1, committed', unacked')
    ensures QueueHolds(arrived, outcomes + [o], writers[|o.members|..], base,
                       lastSequence + (if o.record.Some? then |o.record.value.ops| else 0), committed', unacked')
  {
    var outcomes' := outcomes + [o];
    assert outcomes'[..|outcomes|] == outcomes;
    assert arrived == MembersOf(outcomes) + (o.members + writers[|o.members|..]);
    forall i | 0 <= i < |outcomes'|
      ensures GoodOutcome(outcomes'[i], base + Taken(outcomes'[..i]) + 1, committed', unacked')
    {
      if i < |outcomes| {
        assert outcomes'[..i] == outcomes[..i];
        assert GoodOutcome(outcomes[i], base + Taken(outcomes[..i]) + 1, committed, unacked);
      }
    }
  }

  lemma PopFrontKeeps(s: State, ok: bool, s': State)
    requires s.open && InvOpen(s) && FrontRuns(s)
    requires s' == PopWriters(s, 1, None, ok, false)
    ensures InvOpen(s')
  {
    FilesUntouched(s, s');
    ContentsUntouched(s, s');
    UseUntouched(s, s');
    OutcomeAppended(s.h.arrived, s.h.outcomes, s.writers, s.h.base, s.lastSequence, s.h.committed, s.h.unacked,
                    Outcome(s.writers[..1], None, ok, false), s.h.committed, s.h.unacked);
  }

  // ----- SwitchMemtable -----

  lemma NewLog(logs: Logs, n: nat, first: nat)
    requires n !in logs
    ensures LiveRecords(logs[n := {}], first) == LiveRecords(logs, first)
  {
    var logs' := logs[n := {}];
    forall r | r in LiveRecords(logs, first) ensures r in LiveRecords(logs', first) {
      var m :| m in logs && first <= m && r in logs[m];
      assert r in logs'[m];
    }
  }

  lemma NewLogMemory(
      logs: Logs, logfile: nat, next: nat, oldest: nat, flushed: set<Entry>, mem: set<Entry>, committed: set<Entry>)
    requires MemoryHolds(logs, logfile, oldest, flushed, {}, mem, committed, {}) && logfile < next
    ensures MemoryHolds(logs[next := {}], next, oldest, flushed, mem, {}, committed, {})
  {
    var logs' := logs[next := {}];
    forall r | r in logs[logfile] ensures r in RecordsBetween(logs', oldest, next) {
      assert r in logs'[logfile];
    }
    EntriesInMono(logs[logfile], RecordsBetween(logs', oldest, next));
  }

  lemma NewLogLogs(
      logs: Logs, next: nat, oldest: nat, flushed: set<Entry>, committed: set<Record>, unacked: set<Record>,
      logged: set<Record>, lastSequence: nat)
    requires LogsHold(logs, oldest, flushed, committed, unacked, logged, lastSequence)
    requires Below(logs.Keys, next)
    ensures LogsHold(logs[next := {}], oldest, flushed, committed, unacked, logged, lastSequence)
  {
    NewLog(logs, next, oldest);
    assert EntriesIn({}) == {};
  }

  lemma SwitchContents(s: State)
    requires InvContents(s) && InvNumbers(s) && s.group.None? && s.imm.None?
    ensures InvContents(Switched(s))
  {
    NewLogMemory(s.logs, s.logfile, s.nextFile, s.version.logNumber, s.h.flushed, s.mem, s.Committed());
    NewLogLogs(s.logs, s.nextFile, s.version.logNumber, s.h.flushed, s.h.committed, s.h.unacked, {}, s.lastSequence);
  }

  lemma SwitchMemtableKeeps(s: State, s': State)
    requires s.open && InvOpen(s) && WriterEnabled(s, SwitchMemtable)
    requires s' == Switched(s)
    ensures InvOpen(s')
  {
    SwitchContents(s);
    UseUntouched(s, s');
    assert s.logs[s.nextFile := {}].Keys == s.logs.Keys + {s.nextFile};
  }

  // ----- the group -----

  lemma StartGroupContents(s: State)
    requires InvContents(s) && s.group.None? && CanLead(s.writers)
    ensures InvContents(GroupStarted(s))
  {
    assert FirstEntries(GroupStarted(s).group.value.record, 0) == {};
  }

  lemma StartGroupKeeps(s: State, s': State)
    requires s.open && InvOpen(s) && FrontRuns(s) && CanLead(s.writers)
    requires s' == GroupStarted(s)
    ensures InvOpen(s')
  {
    StartGroupContents(s);
    NewestRecordUnseen(s);
    FilesUntouched(s, s');
  }

  /** No snapshot reaches the record about to be written. */
  lemma NewestRecordUnseen(s: State)
    requires s.group.None? && CanLead(s.writers) && InvReaders(s) && InvWhole(s)
    ensures InvWhole(GroupStarted(s))
  {
    var s' := GroupStarted(s);
    var r := s'.group.value.record;
    RecordRange(r, |r.ops|);
    forall q | q in s'.h.committed + s'.h.unacked + s'.InFlight()
      ensures forall i | 0 <= i < |s'.snapshots| :: Whole(q, s'.snapshots[i])
      ensures forall d | d in s'.readers :: Whole(q, d.snapshot)
    {
      if q !in s.h.committed + s.h.unacked + s.InFlight() {
        assert q == r;
        forall d | d in s.readers ensures Whole(q, d.snapshot) {
          assert ReaderHolds(d, s.tables, Writing(s.flush, s.job), s.Committed(), s.lastSequence);
        }
      }
    }
  }

  lemma AppendedMemory(
      logs: Logs, logfile: nat, r: Record, oldest: nat, flushed: set<Entry>, imm: set<Entry>, mem: set<Entry>,
      committed: set<Entry>, inserted: set<Entry>)
    requires MemoryHolds(logs, logfile, oldest, flushed, imm, mem, committed, inserted)
    ensures MemoryHolds(AppendRecord(logs, logfile, r), logfile, oldest, flushed, imm, mem, committed, inserted)
  {
    var logs' := AppendRecord(logs, logfile, r);
    EntriesInMono(logs[logfile], logs'[logfile]);
    forall q | q in RecordsBetween(logs, oldest, logfile) ensures q in RecordsBetween(logs', oldest, logfile) {
      var n :| n in logs && oldest <= n < logfile && q in logs[n];
      assert q in logs'[n];
    }
    EntriesInMono(RecordsBetween(logs, oldest, logfile), RecordsBetween(logs', oldest, logfile));
  }

  lemma AppendedLogs(
      logs: Logs, logfile: nat, r: Record, oldest: nat, flushed: set<Entry>, committed: set<Record>,
      unacked: set<Record>, lastSequence: nat)
    requires LogsHold(logs, oldest, flushed, committed, unacked, {}, lastSequence)
    requires oldest <= logfile && logfile in logs && forall n | n in logs :: n <= logfile
    requires flushed <= EntriesIn(committed) && r.first == lastSequence + 1
    ensures LogsHold(AppendRecord(logs, logfile, r), oldest, flushed, committed, unacked, {r}, lastSequence)
  {
    var logs' := AppendRecord(logs, logfile, r);
    AppendLive(logs, logfile, r, oldest);
    RecordRange(r, |r.ops|);
    EntriesInUnion(committed, unacked);
    EntriesInMono(LiveRecords(logs, oldest), committed + unacked);
    forall n, m | n in logs' && m in logs' && oldest <= n < m ensures AllNewer(EntriesIn(logs'[m]), EntriesIn(logs'[n])) {
      assert logs'[n] == logs[n];
      assert logs[n] <= LiveRecords(logs, oldest);
      EntriesInMono(logs[n], LiveRecords(logs, oldest));
      if m == logfile {
        EntriesInUnion(logs[m], {r});
        assert EntriesIn({r}) == EntriesOf(r);
      }
    }
  }

  lemma LogRecordContents(s: State, ok: bool, appended: bool)
    requires InvContents(s) && InvGroup(s) && WriterEnabled(s, LogRecord(ok, appended))
    ensures InvContents(RecordLogged(s, ok, appended))
  {
    var r := s.group.value.record;
    var s' := RecordLogged(s, ok, appended);
    AppendedMemory(s.logs, s.logfile, r, s.version.logNumber, s.h.flushed, s.ImmEntries(), s.mem, s.Committed(), Inserted(s.group));
    AppendedLogs(s.logs, s.logfile, r, s.version.logNumber, s.h.flushed, s.h.committed, s.h.unacked, s.lastSequence);
    assert Inserted(s'.group) == Inserted(s.group) && Logged(s'.group) == {r};
  }

  lemma LogRecordWriters(s: State, ok: bool, appended: bool)
    requires InvWriters(s) && s.logfile in s.logs && WriterEnabled(s, LogRecord(ok, appended))
    ensures InvWriters(RecordLogged(s, ok, appended))
  {
  }

  lemma LogRecordKeeps(s: State, ok: bool, appended: bool, s': State)
    requires s.open && InvOpen(s) && WriterEnabled(s, LogRecord(ok, appended))
    requires s' == RecordLogged(s, ok, appended)
    ensures InvOpen(s')
  {
    LogRecordContents(s, ok, appended);
    LogRecordWriters(s, ok, appended);
    assert s'.logs.Keys == s.logs.Keys;
    FilesUntouched(s, s');
    UseUntouched(s, s');
  }

  lemma SyncLogKeeps(s: State, ok: bool, s': State)
    requires s.open && InvOpen(s) && WriterEnabled(s, SyncLog(ok))
    requires s' == LogSynced(s, ok)
    ensures InvOpen(s')
  {
    FilesUntouched(s, s');
    UseUntouched(s, s');
    assert Inserted(s'.group) == Inserted(s.group);
  }

  /** The memtable takes the next entry of the record, newer than all it held. */
  lemma InsertedMemory(
      logs: Logs, logfile: nat, oldest: nat, flushed: set<Entry>, imm: set<Entry>, mem: set<Entry>,
      committed: set<Entry>, r: Record, n: nat, lastSequence: nat)
    requires n < |r.ops| && MemoryHolds(logs, logfile, oldest, flushed, imm, mem, committed, FirstEntries(r, n))
    requires r in logs[logfile] && AtMost(committed, lastSequence) && r.first == lastSequence + 1
    ensures MemoryHolds(logs, logfile, oldest, flushed, imm, mem + {EntryAt(r, n)}, committed, FirstEntries(r, n + 1))
  {
    var e := EntryAt(r, n);
    assert FirstEntries(r, n + 1) == FirstEntries(r, n) + {e};
    assert e in EntriesOf(r);
    EntriesInMono({r}, logs[logfile]);
    assert e in EntriesIn({r});
  }

  lemma InsertEntryContents(s: State)
    requires InvContents(s) && InvGroup(s) && WriterEnabled(s, InsertEntry)
    ensures InvContents(EntryInserted(s))
  {
    var r, n := s.group.value.record, s.group.value.inserted;
    assert Inserted(s.group) == FirstEntries(r, n) && Inserted(EntryInserted(s).group) == FirstEntries(r, n + 1);
    InsertedMemory(s.logs, s.logfile, s.version.logNumber, s.h.flushed, s.ImmEntries(), s.mem, s.Committed(), r, n, s.lastSequence);
  }

  lemma InsertEntryKeeps(s: State, s': State)
    requires s.open && InvOpen(s) && WriterEnabled(s, InsertEntry)
    requires s' == EntryInserted(s)
    ensures InvOpen(s')
  {
    InsertEntryContents(s);
    FilesUntouched(s, s');
    UseUntouched(s, s');
  }

  // ----- FinishGroup -----

  lemma CloseGroupContents(s: State, s': State)
    requires InvContents(s) && InvGroup(s) && WriterEnabled(s, FinishGroup)
    requires s' == GroupFinished(s)
    ensures InvContents(s')
  {
    var r := s.group.value.record;
    RecordRange(r, |r.ops|);
    EntriesInUnion(s.h.committed, {r});
    EntriesInUnion(s.h.unacked, {r});
    assert EntriesIn({r}) == EntriesOf(r);
    assert FirstEntries(r, 0) == {};
  }

  /** Entries numbered beyond a reader's snapshot do not change what it sees. */
  lemma CommitUnseen(
      readers: multiset<Reader>, tables: Tables, writing: set<nat>, committed: set<Entry>, lastSequence: nat,
      added: set<Entry>, lastSequence': nat)
    requires ReadersHold(readers, tables, writing, committed, lastSequence) && lastSequence <= lastSequence'
    requires forall e | e in added :: e.sequence > lastSequence
    ensures ReadersHold(readers, tables, writing, committed + added, lastSequence')
  {
    forall r | r in readers ensures ReaderHolds(r, tables, writing, committed + added, lastSequence') {
      assert ReaderHolds(r, tables, writing, committed, lastSequence);
      UnseenEntries(committed, added, r.snapshot);
    }
  }

  lemma CloseGroupUse(s: State, s': State)
    requires InvUse(s) && InvGroup(s) && WriterEnabled(s, FinishGroup)
    requires s' == GroupFinished(s)
    ensures InvUse(s')
  {
    var r := s.group.value.record;
    RecordRange(r, |r.ops|);
    EntriesInUnion(s.h.committed, {r});
    assert EntriesIn({r}) == EntriesOf(r);
    CommitUnseen(s.readers, s.tables, Writing(s.flush, s.job), s.Committed(), s.lastSequence, EntriesOf(r), s'.lastSequence);
    CommitUnseen(s.readers, s.tables, Writing(s.flush, s.job), s.Committed(), s.lastSequence, {}, s'.lastSequence);
    assert s.Committed() + {} == s.Committed();
    assert s'.h.committed + s'.h.unacked + s'.InFlight() == s.h.committed + s.h.unacked + s.InFlight();
  }

  lemma CloseGroupWriters(s: State, s': State)
    requires InvWriters(s) && WriterEnabled(s, FinishGroup)
    requires s' == GroupFinished(s)
    ensures InvWriters(s')
  {
    var g := s.group.value;
    var o := Outcome(s.writers[..g.size], Some(g.record), g.phase.Inserting?, g.synced);
    forall w | o.ok && w in o.members && w.sync ensures o.synced {
      var i :| 0 <= i < g.size && s.writers[i] == w;
    }
    OutcomeAppended(s.h.arrived, s.h.outcomes, s.writers, s.h.base, s.lastSequence, s.h.committed, s.h.unacked,
                    o, s'.h.committed, s'.h.unacked);
  }

  lemma FinishGroupKeeps(s: State, s': State)
    requires s.open && InvOpen(s) && WriterEnabled(s, FinishGroup)
    requires s' == GroupFinished(s)
    ensures InvOpen(s')
  {
    CloseGroupContents(s, s');
    CloseGroupUse(s, s');
    CloseGroupWriters(s, s');
    FilesUntouched(s, s');
  }

  lemma WriterKeeps(s: State, step: WriterStep, s': State)
    requires s.open && InvOpen(s) && WriterEnabled(s, step)
    requires s' == ApplyWriter(s, step)
    ensures s'.open && InvOpen(s')
  {
    match step
    case Enqueue(w) => EnqueueKeeps(s, w, s');
    case Wait => WaitKeeps(s, s');
    case SwitchMemtable => SwitchMemtableKeeps(s, s');
    case RejectFront => PopFrontKeeps(s, false, s');
    case LetNullFrontGo => PopFrontKeeps(s, true, s');
    case StartGroup => StartGroupKeeps(s, s');
    case LogRecord(ok, appended) => LogRecordKeeps(s, ok, appended, s');
    case SyncLog(ok) => SyncLogKeeps(s, ok, s');
    case InsertEntry => InsertEntryKeeps(s, s');
    case FinishGroup => FinishGroupKeeps(s, s');
  }
}
