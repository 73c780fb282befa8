/** Opening a database: replaying the logs the manifest still needs. */
module LogRecovery {
  import opened Common
  import opened DbFormat
  import opened Store
  import opened Engine
  import opened EngineProof

  /** What the environment answers: any combination is possible. */
  datatype Environment = Environment(
    reuseLogs: bool,
    tableBuilt: nat -> bool,
    appendable: nat -> bool,
    full: set<Entry> -> bool,
    logCreated: bool,
    manifestWritten: bool)
  {
    ghost predicate NoFaults() {
      (forall n :: tableBuilt(n)) && logCreated && manifestWritten
    }
  }

  function RecordSet(records: seq<Record>): set<Record> {
    set r | r in records
  }

  ghost predicate Covered(records: set<Record>, lastSequence: nat) {
    forall r | r in records :: r.first + |r.ops| <= lastSequence + 1
  }

  ghost predicate Numbered(records: set<Record>) {
    forall r | r in records :: r.first >= 1
  }

  lemma RecordSetGrows(records: seq<Record>, i: nat)
    requires i < |records|
    ensures RecordSet(records[..i + 1]) == RecordSet(records[..i]) + {records[i]}
    ensures EntriesIn(RecordSet(records[..i + 1])) == EntriesIn(RecordSet(records[..i])) + EntriesOf(records[i])
  {
    assert records[..i + 1] == records[..i] + [records[i]];
    EntriesInUnion(RecordSet(records[..i]), {records[i]});
    assert EntriesIn({records[i]}) == EntriesOf(records[i]);
  }

  lemma TableAdded(tables: Tables, n: nat, content: set<Entry>)
    requires n !in tables
    ensures TableEntries(tables[n := content], tables.Keys + {n}) == TableEntries(tables, tables.Keys) + content
  {
    var tables' := tables[n := content];
    TableEntriesSame(tables, tables', tables.Keys);
    TableEntriesUnion(tables', tables.Keys, {n});
    assert tables'[n] == content;
    assert TableEntries(tables', {n}) == content;
  }

  function Held(m: Option<set<Entry>>): set<Entry> {
    if m.Some? then m.value else {}
  }

  /** The records seen so far are in tables or in the memtable being filled, and their numbers are covered. */
  ghost predicate Accounts(tables: set<Entry>, m: Option<set<Entry>>, before: set<Entry>, records: set<Record>, max: nat) {
    tables + Held(m) == before + EntriesIn(records) && Covered(records, max)
  }

  lemma AccountsMore(
      tables: set<Entry>, m: Option<set<Entry>>, before: set<Entry>, records: set<Record>, max: nat,
      tables': set<Entry>, m': Option<set<Entry>>, added: set<Record>, max': nat)
    requires Accounts(tables, m, before, records, max) && max <= max' && Covered(added, max')
    requires tables' + Held(m') == tables + Held(m) + EntriesIn(added)
    ensures Accounts(tables', m', before, records + added, max')
  {
    EntriesInUnion(records, added);
  }

  /** The records of the first n logs. */
  function RecordsInLogs(numbers: seq<nat>, contents: map<nat, seq<Record>>, n: nat): set<Record>
    requires n <= |numbers| && forall i | 0 <= i < |numbers| :: numbers[i] in contents
  {
    if n == 0 then {} else RecordsInLogs(numbers, contents, n - 1) + RecordSet(contents[numbers[n - 1]])
  }

  lemma {:induction false} RecordsInLogsMembers(numbers: seq<nat>, contents: map<nat, seq<Record>>, n: nat)
    requires n <= |numbers| && forall i | 0 <= i < |numbers| :: numbers[i] in contents
    ensures forall r :: r in RecordsInLogs(numbers, contents, n) <==> exists i :: 0 <= i < n && r in contents[numbers[i]]
  {
    if n > 0 {
      RecordsInLogsMembers(numbers, contents, n - 1);
    }
  }

  /** The sorted numbers of the logs from first on, and what a reader finds in each. */
  ghost predicate Lists(numbers: seq<nat>, contents: map<nat, seq<Record>>, logs: Logs, first: nat) {
    && (forall i, j | 0 <= i < j < |numbers| :: numbers[i] < numbers[j])
    && (forall n :: n in numbers <==> n in logs && first <= n)
    && (forall n | n in numbers :: n in contents && RecordSet(contents[n]) == logs[n])
  }

  lemma LoggedIsLive(numbers: seq<nat>, contents: map<nat, seq<Record>>, logs: Logs, first: nat)
    requires Lists(numbers, contents, logs, first)
    ensures forall i | 0 <= i < |numbers| :: numbers[i] in contents
    ensures RecordsInLogs(numbers, contents, |numbers|) == LiveRecords(logs, first)
    ensures numbers != [] ==>
              RecordsInLogs(numbers, contents, |numbers| - 1) == RecordsBetween(logs, first, numbers[|numbers| - 1])
  {
    RecordsInLogsMembers(numbers, contents, |numbers|);
    forall r ensures r in RecordsInLogs(numbers, contents, |numbers|) <==> r in LiveRecords(logs, first) {
      if i :| 0 <= i < |numbers| && r in contents[numbers[i]] {
        assert r in RecordSet(contents[numbers[i]]) && numbers[i] in numbers;
      }
      if n :| n in logs && first <= n && r in logs[n] {
        assert n in numbers && r in RecordSet(contents[n]);
      }
    }
    if numbers != [] {
      var last := numbers[|numbers| - 1];
      RecordsInLogsMembers(numbers, contents, |numbers| - 1);
      forall r ensures r in RecordsInLogs(numbers, contents, |numbers| - 1) <==> r in RecordsBetween(logs, first, last) {
        if i :| 0 <= i < |numbers| - 1 && r in contents[numbers[i]] {
          assert r in RecordSet(contents[numbers[i]]) && numbers[i] in numbers;
        }
        if n :| n in logs && first <= n < last && r in logs[n] {
          assert n in numbers && r in RecordSet(contents[n]);
        }
      }
    }
  }

  class OpeningDB {
    var nextFile: nat
    var written: Tables
    var saveManifest: bool
    var maxSequence: nat
    var mem: Option<set<Entry>>
    var logfile: nat

    constructor (next: nat, save: bool)
      ensures nextFile == next && written == map[] && saveManifest == save && maxSequence == 0 && mem == None
    {
      nextFile, written, saveManifest, maxSequence, mem, logfile := next, map[], save, 0, None, 0;
    }

    ghost function Written(): set<Entry>
      reads this
    {
      TableEntries(written, written.Keys)
    }

    /** Fresh numbers only, and a table written means the manifest must be saved. */
    ghost predicate Valid(first: nat)
      reads this
    {
      && first <= nextFile && (forall n | n in written :: first <= n < nextFile)
      && (written != map[] ==> saveManifest)
    }

    /** An empty memtable leaves no table behind. */
    method WriteLevel0Table(m: set<Entry>, env: Environment, ghost first: nat) returns (ok: bool)
      requires Valid(first) && saveManifest
      modifies this
      ensures Valid(first) && saveManifest && nextFile == old(nextFile) + 1
      ensures mem == old(mem) && maxSequence == old(maxSequence) && logfile == old(logfile)
      ensures ok == env.tableBuilt(old(nextFile)) && (ok ==> Written() == old(Written()) + m)
      ensures written == if ok && m != {} then old(written)[old(nextFile) := m] else old(written)
    {
      var number := nextFile;
      nextFile := nextFile + 1;
      ok := env.tableBuilt(number);
      if ok && m != {} {
        TableAdded(written, number, m);
        assert written[number := m].Keys == written.Keys + {number};
        written := written[number := m];
      }
    }

    method ReplayRecord(record: Record, m: Option<set<Entry>>, env: Environment, ghost first: nat)
      returns (ok: bool, m': Option<set<Entry>>, flushed: bool)
      requires Valid(first) && record.first >= 1
      modifies this
      ensures Valid(first) && mem == old(mem) && logfile == old(logfile) && old(nextFile) <= nextFile
      ensures ok ==> Written() + Held(m') == old(Written()) + Held(m) + EntriesOf(record)
      ensures old(maxSequence) <= maxSequence && record.first + |record.ops| <= maxSequence + 1
      ensures maxSequence == old(maxSequence) || maxSequence == record.first + |record.ops| - 1
      ensures flushed == env.full(Held(m) + EntriesOf(record)) && (flushed ==> m'.None? && saveManifest)
      ensures !flushed ==>
                ok && written == old(written) && saveManifest == old(saveManifest) && m' == Some(Held(m) + EntriesOf(record))
      ensures env.NoFaults() ==> ok
    {
      ok, m', flushed := true, Some(Held(m) + EntriesOf(record)), false;
      var last := record.first + |record.ops| - 1;
      if last > maxSequence {
        maxSequence := last;
      }
      if env.full(m'.value) {
        flushed := true;
        saveManifest := true;
        ok := WriteLevel0Table(m'.value, env, first);
        m' := None;
      }
    }

    method ReplayRecords(records: seq<Record>, env: Environment, ghost first: nat)
      returns (ok: bool, m: Option<set<Entry>>, compactions: nat)
      requires Valid(first) && Numbered(RecordSet(records))
      modifies this
      ensures Valid(first) && mem == old(mem) && logfile == old(logfile) && old(nextFile) <= nextFile
      ensures old(maxSequence) <= maxSequence
      ensures ok ==> Accounts(Written(), m, old(Written()), RecordSet(records), maxSequence)
      ensures ok && compactions == 0 ==>
                && written == old(written) && saveManifest == old(saveManifest)
                && (if m.Some? then m.value == EntriesIn(RecordSet(records)) else records == [])
      ensures env.NoFaults() ==> ok
    {
      ok, m, compactions := true, None, 0;
      var i := 0;
      ghost var done: set<Record> := {};
      assert EntriesIn({}) == {};
      while i < |records| && ok
        invariant i <= |records| && Valid(first) && done == RecordSet(records[..i])
        invariant mem == old(mem) && logfile == old(logfile) && old(nextFile) <= nextFile && old(maxSequence) <= maxSequence
        invariant ok ==> Accounts(Written(), m, old(Written()), done, maxSequence)
        invariant ok && compactions == 0 ==>
                    && written == old(written) && saveManifest == old(saveManifest)
                    && (if m.Some? then m.value == EntriesIn(done) else i == 0)
        invariant env.NoFaults() ==> ok
      {
        assert records[i] in RecordSet(records);
        RecordSetGrows(records, i);
        ghost var tables, held, max := Written(), m, maxSequence;
        var flushed;
        ok, m, flushed := ReplayRecord(records[i], m, env, first);
        if ok {
          assert EntriesIn({records[i]}) == EntriesOf(records[i]);
          AccountsMore(tables, held, old(Written()), done, max, Written(), m, {records[i]}, maxSequence);
        }
        done := done + {records[i]};
        if flushed {
          compactions := compactions + 1;
        }
        i := i + 1;
      }
      assert ok ==> records[..i] == records;
    }

    method RecoverLogFile(number: nat, records: seq<Record>, lastLog: bool, env: Environment, ghost first: nat) returns (ok: bool)
      requires Valid(first) && mem.None? && Numbered(RecordSet(records))
      modifies this
      ensures Valid(first) && old(nextFile) <= nextFile
      ensures ok ==> old(maxSequence) <= maxSequence && Accounts(Written(), mem, old(Written()), RecordSet(records), maxSequence)
      ensures ok && mem.Some? ==>
                lastLog && logfile == number && written == old(written) && mem.value == EntriesIn(RecordSet(records))
      ensures env.NoFaults() ==> ok
    {
      var m, compactions;
      ok, m, compactions := ReplayRecords(records, env, first);
      if ok && env.reuseLogs && lastLog && compactions == 0 && env.appendable(number) {
        logfile := number;
        assert EntriesIn({}) == {};
        if m.Some? {
          mem := m;
          m := None;
        } else {
          mem := Some({});
        }
      }
      if m.Some? && ok {
        saveManifest := true;
        ok := WriteLevel0Table(m.value, env, first);
      }
    }

    /** Replays the logs in the order of their numbers. */
    method Recover(numbers: seq<nat>, contents: map<nat, seq<Record>>, env: Environment, ghost first: nat) returns (ok: bool)
      requires Valid(first) && written == map[] && mem.None? && maxSequence == 0
      requires forall i | 0 <= i < |numbers| :: numbers[i] in contents && Numbered(RecordSet(contents[numbers[i]]))
      modifies this
      ensures Valid(first)
      ensures ok ==> Accounts(Written(), mem, {}, RecordsInLogs(numbers, contents, |numbers|), maxSequence)
      ensures ok && mem.Some? ==>
                && numbers != [] && logfile == numbers[|numbers| - 1]
                && Written() == EntriesIn(RecordsInLogs(numbers, contents, |numbers| - 1))
                && mem.value == EntriesIn(RecordSet(contents[logfile]))
      ensures ok ==> forall i | 0 <= i < |numbers| :: numbers[i] < nextFile
      ensures env.NoFaults() ==> ok
    {
      ok := true;
      var i := 0;
      assert Written() == {} && EntriesIn({}) == {};
      while i < |numbers| && ok
        invariant i <= |numbers| && Valid(first)
        invariant ok ==> Accounts(Written(), mem, {}, RecordsInLogs(numbers, contents, i), maxSequence)
        invariant ok && mem.Some? ==>
                    && 0 < i == |numbers| && logfile == numbers[i - 1]
                    && Written() == EntriesIn(RecordsInLogs(numbers, contents, i - 1))
                    && mem.value == EntriesIn(RecordSet(contents[logfile]))
        invariant ok ==> forall k | 0 <= k < i :: numbers[k] < nextFile
        invariant env.NoFaults() ==> ok
      {
        ghost var tables, max := Written(), maxSequence;
        ok := RecoverLogFile(numbers[i], contents[numbers[i]], i == |numbers| - 1, env, first);
        if ok {
          AccountsMore(tables, None, {}, RecordsInLogs(numbers, contents, i), max,
                       Written(), mem, RecordSet(contents[numbers[i]]), maxSequence);
          // MarkFileNumberUsed
          if nextFile <= numbers[i] {
            nextFile := numbers[i] + 1;
          }
        }
        i := i + 1;
      }
    }

    /** Opening succeeds only into a state that recovery is allowed to leave, and succeeds when no file is missing
        and nothing fails. The version set contributes the next file number of the manifest and whether the
        manifest has to be rewritten anyway. */
    static method Open(
        ghost s: State, manifest: Manifest, present: set<nat>, numbers: seq<nat>, contents: map<nat, seq<Record>>,
        next: nat, rewrite: bool, env: Environment, needsCompaction: bool, l0Full: bool)
      returns (r: Option<Recovery>)
      requires manifest == s.manifest && present == s.tables.Keys && Lists(numbers, contents, s.logs, manifest.logNumber)
      requires Numbered(LiveRecords(s.logs, manifest.logNumber))
      requires manifest.logNumber < next && forall n | n in manifest.tables :: n < next
      requires l0Full ==> needsCompaction
      ensures r.Some? ==> CanReopen(s, r.value)
      ensures env.NoFaults() && manifest.tables <= present ==> r.Some?
    {
      if !(manifest.tables <= present) {
        return None;
      }
      LoggedIsLive(numbers, contents, s.logs, manifest.logNumber);
      LogsNumbered(numbers, contents, s.logs, manifest.logNumber);
      var db := new OpeningDB(next, rewrite);
      var ok := db.Recover(numbers, contents, env, next);
      if !ok {
        return None;
      }
      ghost var reused := db.mem.Some?;
      if db.mem.None? {
        if !env.logCreated {
          return None;
        }
        db.logfile, db.mem, db.nextFile := db.nextFile, Some({}), db.nextFile + 1;
      }
      if db.saveManifest && !env.manifestWritten {
        return None;
      }
      var last := if manifest.lastSequence < db.maxSequence then db.maxSequence else manifest.lastSequence;
      r := Some(Recovery(db.written, db.mem.value, db.logfile, db.nextFile, db.saveManifest, last, needsCompaction, l0Full));
      OpenedWell(s, r.value, numbers, contents, next, reused);
    }
  }

  lemma LogsNumbered(numbers: seq<nat>, contents: map<nat, seq<Record>>, logs: Logs, first: nat)
    requires Lists(numbers, contents, logs, first) && Numbered(LiveRecords(logs, first))
    ensures forall i | 0 <= i < |numbers| :: numbers[i] in contents && Numbered(RecordSet(contents[numbers[i]]))
  {
    forall i | 0 <= i < |numbers| ensures numbers[i] in contents && Numbered(RecordSet(contents[numbers[i]])) {
      assert numbers[i] in numbers;
      assert logs[numbers[i]] <= LiveRecords(logs, first);
    }
  }

  lemma OpenedWell(
      s: State, r: Recovery, numbers: seq<nat>, contents: map<nat, seq<Record>>, next: nat, reused: bool)
    requires Lists(numbers, contents, s.logs, s.manifest.logNumber)
    requires s.manifest.logNumber < next && forall n | n in s.manifest.tables :: n < next
    requires forall i | 0 <= i < |numbers| :: numbers[i] in contents && numbers[i] < r.nextFile
    requires (forall n | n in r.tables :: next <= n < r.nextFile) && next <= r.nextFile && r.log < r.nextFile
    requires r.Entries() + r.memory == EntriesIn(RecordsInLogs(numbers, contents, |numbers|))
    requires Covered(RecordsInLogs(numbers, contents, |numbers|), r.lastSequence) && s.manifest.lastSequence <= r.lastSequence
    requires r.tables != map[] ==> r.save
    requires r.l0Full ==> r.needsCompaction
    requires if reused
             then numbers != [] && r.log == numbers[|numbers| - 1] && r.memory == EntriesIn(RecordSet(contents[r.log]))
                  && r.Entries() == EntriesIn(RecordsInLogs(numbers, contents, |numbers| - 1))
             else next <= r.log && r.memory == {} && forall i | 0 <= i < |numbers| :: numbers[i] < r.log
    ensures CanReopen(s, r)
  {
    LoggedIsLive(numbers, contents, s.logs, s.manifest.logNumber);
    if reused {
      assert r.log in numbers;
    } else {
      assert r.log !in numbers;
    }
    forall n | n in s.logs && s.manifest.logNumber <= n ensures n <= r.log {
      assert n in numbers;
    }
  }
}
