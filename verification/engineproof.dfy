/** Every step of the engine keeps its invariant. */
module EngineProof {
  import opened Common
  import opened DbFormat
  import opened Store
  import opened CompactionWork
  import opened Engine
  import opened EngineInvariant

  // ----- sets of entries in files -----

  lemma TableEntriesUnion(tables: Tables, a: set<nat>, b: set<nat>)
    ensures TableEntries(tables, a + b) == TableEntries(tables, a) + TableEntries(tables, b)
  {
  }

  lemma TableEntriesSame(tables: Tables, tables': Tables, numbers: set<nat>)
    requires forall n | n in numbers :: (n in tables <==> n in tables') && (n in tables ==> tables[n] == tables'[n])
    ensures TableEntries(tables', numbers) == TableEntries(tables, numbers)
  {
  }

  lemma AppendLive(logs: Logs, n: nat, r: Record, first: nat)
    requires first <= n
    ensures LiveRecords(AppendRecord(logs, n, r), first) == LiveRecords(logs, first) + {r}
    ensures LiveEntries(AppendRecord(logs, n, r), first) == LiveEntries(logs, first) + EntriesOf(r)
  {
    var logs' := AppendRecord(logs, n, r);
    assert r in logs'[n];
    forall q | q in LiveRecords(logs, first) ensures q in LiveRecords(logs', first) {
      var m :| m in logs && first <= m && q in logs[m];
      assert q in logs'[m];
    }
    assert r in LiveRecords(logs', first);
    EntriesInUnion(LiveRecords(logs, first), {r});
    assert EntriesIn({r}) == EntriesOf(r);
  }

  lemma EntriesInUnion(a: set<Record>, b: set<Record>)
    ensures EntriesIn(a + b) == EntriesIn(a) + EntriesIn(b)
  {
  }

  lemma EntriesInMono(a: set<Record>, b: set<Record>)
    requires a <= b
    ensures EntriesIn(a) <= EntriesIn(b)
  {
  }

  /** The entries of a record carry the sequence numbers from its first on. */
  lemma RecordRange(r: Record, n: nat)
    requires n <= |r.ops|
    ensures forall e | e in FirstEntries(r, n) :: r.first <= e.sequence < r.first + n
    ensures FirstEntries(r, n) <= EntriesOf(r)
  {
  }

  // ----- steps that leave whole groups of components alone -----

  ghost predicate SameFiles(s: State, s': State) {
    && s'.tables == s.tables && s'.version == s.version && s'.manifest == s.manifest && s'.pending == s.pending
    && s'.nextFile == s.nextFile && s'.logfile == s.logfile && s'.logs.Keys == s.logs.Keys && s'.imm == s.imm
    && s'.flush == s.flush && s'.job == s.job && s'.commit == s.commit && (s.bgError ==> s'.bgError)
    && s'.h.flushed == s.h.flushed && s'.h.floor == s.h.floor && s'.h.extra == s.h.extra && s'.h.dup == s.h.dup
    && s'.h.torn == s.h.torn && s'.h.base == s.h.base && s.lastSequence <= s'.lastSequence
  }

  lemma FilesUntouched(s: State, s': State)
    requires InvFiles(s) && SameFiles(s, s')
    ensures InvFiles(s')
  {
  }

  ghost predicate SameContents(s: State, s': State) {
    && s'.logs == s.logs && s'.logfile == s.logfile && s'.version.logNumber == s.version.logNumber
    && s'.imm == s.imm && s'.mem == s.mem && s'.group == s.group && s'.lastSequence == s.lastSequence
    && s'.h.flushed == s.h.flushed && s'.h.committed == s.h.committed && s'.h.unacked == s.h.unacked
  }

  lemma ContentsUntouched(s: State, s': State)
    requires InvContents(s) && SameContents(s, s')
    ensures InvContents(s')
  {
  }

  /** Fewer files may be in the writing; everything else readers depend on stays. */
  ghost predicate SameUse(s: State, s': State) {
    && s'.snapshots == s.snapshots && s'.readers == s.readers && s'.lastSequence == s.lastSequence
    && s'.tables == s.tables && s'.h.floor == s.h.floor && s'.h.base == s.h.base && s'.h.committed == s.h.committed
    && Writing(s'.flush, s'.job) <= Writing(s.flush, s.job)
    && (s'.job.Some? ==> s.job.Some? && s'.job.value.snapshot == s.job.value.snapshot)
    && s'.h.unacked == s.h.unacked && s'.InFlight() == s.InFlight()
  }

  lemma UseUntouched(s: State, s': State)
    requires InvUse(s) && SameUse(s, s')
    ensures InvUse(s')
  {
    forall r | r in s.readers ensures ReaderHolds(r, s.tables, Writing(s'.flush, s'.job), s.Committed(), s.lastSequence) {
      assert ReaderHolds(r, s.tables, Writing(s.flush, s.job), s.Committed(), s.lastSequence);
    }
  }

  ghost predicate SameWriters(s: State, s': State) {
    && s'.group == s.group && s'.writers == s.writers && s'.lastSequence == s.lastSequence && s'.logfile == s.logfile
    && (s.logfile in s.logs ==> s.logfile in s'.logs && s'.logs[s.logfile] == s.logs[s.logfile])
    && s'.h.arrived == s.h.arrived && s'.h.outcomes == s.h.outcomes && s'.h.base == s.h.base
    && s'.h.committed == s.h.committed && s'.h.unacked == s.h.unacked
  }

  lemma WritersUntouched(s: State, s': State)
    requires InvWriters(s) && SameWriters(s, s')
    ensures InvWriters(s')
  {
  }
}
