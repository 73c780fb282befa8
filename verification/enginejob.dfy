/** The steps of a compaction keep the invariant. */
module EngineJob {
  import opened Common
  import opened DbFormat
  import opened Store
  import opened CompactionWork
  import opened Engine
  import opened EngineInvariant
  import opened EngineProof
  import opened EngineBackground

  lemma BackgroundIdleKeeps(s: State, s': State)
    requires s.open && InvOpen(s) && JobEnabled(s, BackgroundIdle)
    requires s' == FinishBackgroundCall(s)
    ensures InvOpen(s')
  {
    EndKeeps(s, s');
  }

  /** What the input repeats, two current tables share, so every live snapshot sees it. */
  lemma InputRepeatsBelow(s: State, j: Job)
    requires InvRepeats(s) && InvReaders(s) && CanCompact(s, j.cmp, j.inputs, j.input, j.isBase)
    requires j.snapshot == SmallestSnapshot(s.snapshots, s.lastSequence)
    ensures RepeatsBelow(j.input, j.snapshot) && s.h.base <= j.snapshot
  {
    forall i, k | 0 <= i < k < |j.input| && j.input[i] == j.input[k] ensures j.input[k].sequence <= j.snapshot {
      var e := j.input[k];
      assert IsShared(s.tables, j.inputs, e);
      var n, m :| n in j.inputs && m in j.inputs && n != m && n in s.tables && m in s.tables && e in s.tables[n] && e in s.tables[m];
      assert n in s.version.tables && m in s.version.tables;
    }
  }

  lemma StartJobFiles(s: State, j: Job)
    requires InvFiles(s) && InvReaders(s) && s.flush.None? && s.job.None? && !s.bgError
    requires CanCompact(s, j.cmp, j.inputs, j.input, j.isBase)
    requires j == Job(j.cmp, j.input, j.isBase, SmallestSnapshot(s.snapshots, s.lastSequence), j.inputs, {}, None, 0, false)
    ensures InvFiles(s.(job := Some(j)))
  {
    assert TableEntries(s.tables, {}) == {} && j.AllKept()[..0] == [];
    InputRepeatsBelow(s, j);
  }

  lemma StartJobKeeps(s: State, j: Job, s': State)
    requires s.open && InvOpen(s) && JobEnabled(s, StartJob(j.cmp, j.inputs, j.input, j.isBase))
    requires s' == ApplyJob(s, StartJob(j.cmp, j.inputs, j.input, j.isBase)) && s'.job == Some(j)
    ensures InvOpen(s')
  {
    StartJobFiles(s, j);
    ContentsUntouched(s, s');
    WritersUntouched(s, s');
    WritingChanges(s, s');
  }

  lemma OutputOpenedFiles(s: State)
    requires InvFiles(s) && JobEnabled(s, OpenOutput)
    ensures InvFiles(OutputOpened(s))
  {
    assert s.nextFile !in s.tables;
    OutputOpenedJob(s);
  }

  lemma OutputOpenedJob(s: State)
    requires InvFiles(s) && JobEnabled(s, OpenOutput) && s.nextFile !in s.tables
    ensures InvJob(OutputOpened(s))
  {
    var j := s.job.value;
    TableEntriesUnion(s.tables, j.outputs, {s.nextFile});
    assert TableEntries(s.tables, {s.nextFile}) == {};
  }

  lemma OpenOutputKeeps(s: State, s': State)
    requires s.open && InvOpen(s) && JobEnabled(s, OpenOutput)
    requires s' == OutputOpened(s)
    ensures InvOpen(s')
  {
    OutputOpenedFiles(s);
    ContentsUntouched(s, s');
    WritersUntouched(s, s');
    WritingChanges(s, s');
  }

  // ----- an output is finished -----

  lemma KeptIsDistinct(j: Job)
    requires IsTotalOrder(j.cmp) && Sorted(j.cmp, j.input) && RepeatsBelow(j.input, j.snapshot)
    requires j.snapshot < MAX_SEQUENCE_NUMBER
    ensures Distinct(j.AllKept())
  {
    KeptDistinct(j.cmp, j.input, j.snapshot, j.isBase, |j.input|);
  }

  lemma PieceIsNew(kept: seq<Entry>, done: nat, count: nat)
    requires Distinct(kept) && done + count <= |kept|
    ensures SetOf(kept[..done + count]) == SetOf(kept[..done]) + SetOf(kept[done..done + count])
    ensures SetOf(kept[..done]) !! SetOf(kept[done..done + count])
  {
    assert kept[..done + count] == kept[..done] + kept[done..done + count];
    forall e | e in kept[..done] ensures e !in kept[done..done + count] {
      var i :| 0 <= i < done && kept[i] == e;
    }
  }

  lemma OneTable(tables: Tables, n: nat)
    requires n in tables
    ensures TableEntries(tables, {n}) == tables[n]
  {
  }

  lemma PieceWritten(j: Job, tables: Tables, count: nat, piece: set<Entry>, n: nat, j': Job, tables': Tables)
    requires PiecesHold(j, tables) && j.current == Some(n) && j.done + count <= |j.AllKept()| && Distinct(j.AllKept())
    requires piece == SetOf(j.AllKept()[j.done..j.done + count])
    requires j' == j.(current := None, done := j.done + count) && tables' == tables[n := piece] && !j.committing
    ensures PiecesHold(j', tables')
  {
    PieceIsNew(j.AllKept(), j.done, count);
    var others := j.outputs - {n};
    assert j.outputs == others + {n};
    TableEntriesUnion(tables, others, {n});
    TableEntriesUnion(tables', others, {n});
    TableEntriesSame(tables, tables', others);
    assert TableEntries(tables, {n}) == {};
    OneTable(tables', n);
    forall m | m in others ensures tables'[m] !! piece {
      assert tables[m] <= TableEntries(tables, j.outputs);
    }
  }

  lemma WrittenInput(s: State, n: nat, content: set<Entry>)
    requires InvJob(s) && s.job.Some? && n !in s.version.tables
    ensures InputHolds(s.job.value, s.tables[n := content], s.version.tables)
  {
    TableEntriesSame(s.tables, s.tables[n := content], s.job.value.inputs);
    TableEntriesSame(s.tables, s.tables[n := content], s.version.tables - s.job.value.inputs);
  }

  lemma WrittenJob(s: State, count: nat, n: nat, piece: set<Entry>, s': State)
    requires InvJob(s) && JobEnabled(s, WriteOutput(count)) && n == s.job.value.current.value
    requires piece == SetOf(s.job.value.AllKept()[s.job.value.done..s.job.value.done + count])
    requires s' == s.(tables := s.tables[n := piece], job := Some(s.job.value.(current := None, done := s.job.value.done + count)))
    ensures InvJob(s')
  {
    KeptIsDistinct(s.job.value);
    PieceWritten(s.job.value, s.tables, count, piece, n, s'.job.value, s'.tables);
    WrittenInput(s, n, piece);
  }

  lemma WrittenRest(s: State, t: State, n: nat, piece: set<Entry>, s': State)
    requires InvFiles(s) && JobWorks(s) && s.job.value.current == Some(n)
    requires t == s.(tables := s.tables[n := piece]) && s' == t.(job := s'.job)
    requires s'.job.Some? && s'.job.value == s.job.value.(current := None, done := s'.job.value.done)
    ensures InvTables(s') && InvManifest(s') && InvRepeats(s') && InvNumbers(s') && InvFlush(s')
  {
    FileWrittenTables(s, n, piece);
    assert t.tables.Keys == s.tables.Keys + {n};
  }

  lemma WrittenUse(s: State, t: State, n: nat, piece: set<Entry>, s': State)
    requires InvUse(s) && n in Writing(s.flush, s.job)
    requires t == s.(tables := s.tables[n := piece]) && s' == t.(job := s'.job)
    requires s.job.Some? && s'.job.Some? && s'.job.value == s.job.value.(current := None, done := s'.job.value.done)
    ensures InvUse(s')
  {
    FileWrittenUse(s, n, piece);
    UseUntouched(t, s');
  }

  lemma WriteOutputKeeps(s: State, count: nat, s': State)
    requires s.open && InvOpen(s) && JobEnabled(s, WriteOutput(count))
    requires s' == OutputWritten(s, count)
    ensures InvOpen(s')
  {
    var n := s.job.value.current.value;
    var piece := SetOf(s.job.value.AllKept()[s.job.value.done..s.job.value.done + count]);
    var t := s.(tables := s.tables[n := piece]);
    WrittenJob(s, count, n, piece, s');
    WrittenRest(s, t, n, piece, s');
    WrittenUse(s, t, n, piece, s');
    ContentsUntouched(s, s');
    WritersUntouched(s, s');
  }

  lemma CommitJobFiles(s: State)
    requires InvFiles(s) && JobEnabled(s, CommitJob)
    ensures InvFiles(JobCommitting(s))
  {
  }

  lemma CommitJobKeeps(s: State, s': State)
    requires s.open && InvOpen(s) && JobEnabled(s, CommitJob)
    requires s' == JobCommitting(s)
    ensures InvOpen(s')
  {
    CommitJobFiles(s);
    ContentsUntouched(s, s');
    WritersUntouched(s, s');
    UseUntouched(s, s');
  }

  // ----- the manifest write of a compaction -----

  lemma KeptAreInputs(j: Job)
    ensures j.KeptEntries() <= SetOf(j.input)
  {
    KeptMembers(j.input, j.snapshot, j.isBase, |j.input|);
  }

  /** What the compaction leaves stands for the flushed history under every snapshot it was told to keep. */
  lemma CompactedAnswers(j: Job, rest: set<Entry>, flushed: set<Entry>, before: nat, floor: nat)
    requires IsTotalOrder(j.cmp) && Sorted(j.cmp, j.input) && BaseLevelHolds(SetOf(j.input), rest, j.isBase)
    requires StandsFor(rest + SetOf(j.input), flushed, before)
    requires j.snapshot < MAX_SEQUENCE_NUMBER && before <= floor && j.snapshot <= floor
    ensures StandsFor(rest + j.KeptEntries(), flushed, floor)
  {
    KeptAreInputs(j);
    forall t | t >= floor ensures SameAt(rest + j.KeptEntries(), flushed, t) {
      CompactionPreservesReads(j.cmp, j.input, j.snapshot, j.isBase, rest, t);
      SameThrough(rest + j.KeptEntries(), rest + SetOf(j.input), flushed, t);
    }
  }

  /** A compaction that commits has written all that it keeps. */
  lemma OutputsAreKept(j: Job, tables: Tables)
    requires PiecesHold(j, tables) && j.committing
    ensures j.outputs <= tables.Keys && TableEntries(tables, j.outputs) == j.KeptEntries()
  {
    assert j.AllKept()[..j.done] == j.AllKept();
  }

  lemma CompactedStandsFor(s: State, floor: nat)
    requires InvTables(s) && InvJob(s) && s.job.Some? && s.job.value.committing
    requires s.h.floor <= floor && s.job.value.snapshot <= floor
    ensures StandsFor(TableEntries(s.tables, s.version.tables - JobInputs(s.job) + JobOutputs(s.job)), s.h.flushed, floor)
  {
    var j := s.job.value;
    var rest := s.version.tables - j.inputs;
    OutputsAreKept(j, s.tables);
    TableEntriesUnion(s.tables, rest, j.outputs);
    TableEntriesUnion(s.tables, rest, j.inputs);
    assert rest + j.inputs == s.version.tables;
    CompactedAnswers(j, TableEntries(s.tables, rest), s.h.flushed, s.h.floor, floor);
  }

  /** Tables left over from a failed commit repeat what the current tables hold. */
  lemma LeftoversRepeat(s: State)
    requires InvManifest(s) && s.job.Some?
    ensures TableEntries(s.tables, s.version.tables - JobInputs(s.job) + JobOutputs(s.job) + s.h.dup) ==
            TableEntries(s.tables, s.version.tables - JobInputs(s.job) + JobOutputs(s.job))
  {
    TableEntriesUnion(s.tables, s.version.tables - JobInputs(s.job) + JobOutputs(s.job), s.h.dup);
    TableEntriesUnion(s.tables, s.version.tables - JobInputs(s.job), JobOutputs(s.job));
  }

  lemma JobWrittenTables(s: State)
    requires InvTables(s) && InvManifest(s) && InvFlush(s) && InvJob(s) && JobEnabled(s, WriteJobManifest)
    ensures InvTables(JobWasWritten(s)) && InvManifest(JobWasWritten(s))
  {
    var s' := JobWasWritten(s);
    CompactedStandsFor(s, s'.h.floor);
    LeftoversRepeat(s);
    assert s'.manifest.tables - s'.h.extra == s.version.tables - JobInputs(s.job) + JobOutputs(s.job) + s.h.dup;
  }

  lemma JobWrittenJob(s: State)
    requires InvFlush(s) && InvJob(s) && JobEnabled(s, WriteJobManifest)
    ensures InvFlush(JobWasWritten(s)) && InvJob(JobWasWritten(s))
  {
  }

  lemma JobWrittenUse(s: State)
    requires InvUse(s) && JobEnabled(s, WriteJobManifest)
    ensures InvUse(JobWasWritten(s))
  {
    assert JobWasWritten(s).InFlight() == s.InFlight();
  }

  lemma WriteJobManifestKeeps(s: State, s': State)
    requires s.open && InvOpen(s) && JobEnabled(s, WriteJobManifest)
    requires s' == JobWasWritten(s)
    ensures InvOpen(s')
  {
    JobWrittenTables(s);
    JobWrittenJob(s);
    JobWrittenUse(s);
    ContentsUntouched(s, s');
    WritersUntouched(s, s');
  }

  // ----- the end of a compaction -----

  /** The job is over; its outputs are no longer protected by pending. */
  function JobGone(s: State): State
    requires s.job.Some?
  {
    s.(pending := s.pending - s.job.value.outputs, job := None, commit := None)
  }

  lemma InstalledTables(s: State, needs: bool, l0: bool, t: State)
    requires InvTables(s) && InvManifest(s) && InvFlush(s) && InvJob(s) && JobEnabled(s, FinishJob(needs, l0))
    requires t == JobGone(JobInstalled(s, needs, l0))
    ensures InvTables(t) && InvManifest(t)
  {
    LeftoversRepeat(s);
    TableEntriesUnion(s.tables, s.version.tables - JobInputs(s.job), JobOutputs(s.job));
    assert t.version.tables == s.version.tables - JobInputs(s.job) + JobOutputs(s.job);
    assert t.manifest.tables - t.h.extra == t.version.tables + t.h.dup;
    assert t.version.tables - {} == t.version.tables;
  }

  /** An output holds only what an input held, and no two outputs share an entry. */
  lemma InstalledRepeats(s: State, needs: bool, l0: bool, t: State)
    requires InvRepeats(s) && InvJob(s) && JobEnabled(s, FinishJob(needs, l0))
    requires t == JobGone(JobInstalled(s, needs, l0))
    ensures InvRepeats(t)
  {
    var j := s.job.value;
    OutputsAreKept(j, s.tables);
    KeptAreInputs(j);
    forall n, m, e | n in t.version.tables && m in t.version.tables && n != m && n in s.tables && m in s.tables &&
                     e in s.tables[n] && e in s.tables[m]
      ensures e.sequence <= s.h.base
    {
      if n in j.outputs {
        SharedWithInput(s, n, m, e);
      } else if m in j.outputs {
        SharedWithInput(s, m, n, e);
      }
    }
  }

  lemma SharedWithInput(s: State, n: nat, m: nat, e: Entry)
    requires InvRepeats(s) && InvJob(s) && s.job.Some? && n in s.job.value.outputs && n != m
    requires PiecesHold(s.job.value, s.tables) && s.job.value.KeptEntries() <= SetOf(s.job.value.input)
    requires TableEntries(s.tables, s.job.value.outputs) == s.job.value.KeptEntries()
    requires m in s.job.value.outputs || m in s.version.tables - s.job.value.inputs
    requires n in s.tables && m in s.tables && e in s.tables[n] && e in s.tables[m]
    ensures e.sequence <= s.h.base
  {
    assert e in TableEntries(s.tables, s.job.value.outputs);
    assert e in TableEntries(s.tables, s.job.value.inputs);
    var k :| k in s.job.value.inputs && k in s.tables && e in s.tables[k];
  }

  lemma GoneTables(s: State, u: State, t: State)
    requires InvTables(s) && InvManifest(s) && s.job.Some? && s.flush.None?
    requires (s.commit.Some? && u == JobTorn(s)) || u == RecordBackgroundError(s)
    requires u.h.torn || !JobWritten(s.job, s.commit)
    requires t == JobGone(u)
    ensures InvTables(t) && InvManifest(t)
  {
    assert t.version.tables - {} == t.version.tables;
    TableEntriesUnion(s.tables, s.version.tables - JobInputs(s.job), JobInputs(s.job) * s.version.tables);
  }

  lemma JobGoneRest(s: State, u: State, t: State)
    requires InvContents(s) && InvNumbers(s) && InvFlush(s) && InvJob(s) && InvUse(s) && InvWriters(s)
    requires s.job.Some? && s.flush.None? && u.job == s.job
    requires u == s.(version := u.version, needsCompaction := u.needsCompaction, l0Full := u.l0Full, bgError := u.bgError,
                     waiting := u.waiting, h := s.h.(torn := u.h.torn))
    requires u.version.logNumber == s.version.logNumber
    requires t == JobGone(u)
    ensures InvContents(t) && InvNumbers(t) && InvFlush(t) && InvJob(t) && InvUse(t) && InvWriters(t)
  {
    ContentsUntouched(s, t);
    WritersUntouched(s, t);
    UseUntouched(s, t);
  }

  lemma FinishJobKeeps(s: State, needs: bool, l0: bool, u: State, t: State, v: State, s': State)
    requires s.open && InvOpen(s) && JobEnabled(s, FinishJob(needs, l0))
    requires u == JobInstalled(s, needs, l0) && t == JobGone(u) && v == DeleteObsoleteFiles(t) && s' == FinishBackgroundCall(v)
    ensures InvOpen(s')
  {
    InstalledTables(s, needs, l0, t);
    InstalledRepeats(s, needs, l0, t);
    JobGoneRest(s, u, t);
    GarbageKeeps(t, v);
    EndKeeps(v, s');
  }

  /** A compaction given up before or during its commit. */
  lemma GiveUpKeeps(s: State, u: State, t: State, v: State, s': State)
    requires s.open && InvOpen(s) && s.job.Some? && s.flush.None?
    requires (s.commit.Some? && u == JobTorn(s)) || (u == RecordBackgroundError(s) && !s.job.value.committing)
    requires t == JobGone(u) && v == DeleteObsoleteFiles(t) && s' == FinishBackgroundCall(v)
    ensures InvOpen(s')
  {
    GoneTables(s, u, t);
    JobGoneRest(s, u, t);
    GarbageKeeps(t, v);
    EndKeeps(v, s');
  }

  lemma JobEndKeeps(s: State, step: JobStep, s': State)
    requires s.open && InvOpen(s) && JobEnabled(s, step) && (step.JobFails? || step.FinishJob? || step.AbortJob?)
    requires s' == ApplyJob(s, step)
    ensures s'.open && InvOpen(s')
  {
    match step
    case JobFails =>
      var u := RecordBackgroundError(s);
      GiveUpKeeps(s, u, JobGone(u), DeleteObsoleteFiles(JobGone(u)), s');
    case FinishJob(needs, l0) =>
      var u := JobInstalled(s, needs, l0);
      FinishJobKeeps(s, needs, l0, u, JobGone(u), DeleteObsoleteFiles(JobGone(u)), s');
    case AbortJob =>
      var u := JobTorn(s);
      GiveUpKeeps(s, u, JobGone(u), DeleteObsoleteFiles(JobGone(u)), s');
  }

  lemma JobKeeps(s: State, step: JobStep, s': State)
    requires s.open && InvOpen(s) && JobEnabled(s, step)
    requires s' == ApplyJob(s, step)
    ensures s'.open && InvOpen(s')
  {
    match step
    case BackgroundIdle => BackgroundIdleKeeps(s, s');
    case StartJob(cmp, inputs, input, isBase) => StartJobKeeps(s, s'.job.value, s');
    case OpenOutput => OpenOutputKeeps(s, s');
    case WriteOutput(count) => WriteOutputKeeps(s, count, s');
    case CommitJob => CommitJobKeeps(s, s');
    case WriteJobManifest => WriteJobManifestKeeps(s, s');
    case _ => JobEndKeeps(s, step, s');
  }
}
