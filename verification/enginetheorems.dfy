/** What the engine promises over every run of writers, background thread, readers and crashes. */
module EngineTheorems {
  import opened Common
  import opened DbFormat
  import opened Store
  import opened CompactionWork
  import opened Engine
  import opened EngineInvariant
  import opened EngineProof
  import opened EngineWriters
  import opened EngineBackground
  import opened EngineJob
  import opened EngineLife

  // ----- the invariant over runs -----

  lemma CreatedInv()
    ensures Inv(Created)
  {
    assert forall t :: SameAt({}, {}, t);
    assert TableEntries(map[], {}) == {} && LiveRecords(map[], 0) == {} && EntriesIn({}) == {};
  }

  lemma LifeKeeps(s: State, step: LifeStep, s': State)
    requires Inv(s) && LifeEnabled(s, step) && s' == ApplyLife(s, step)
    ensures Inv(s')
  {
    match step
    case Crash => CrashKeeps(s, s');
    case LeaveTable(n, content) => OtherTableKeeps(s, n, s');
    case LeaveLog(n) => LeaveLogKeeps(s, n, s');
    case LeaveManifest(r) => LeaveManifestKeeps(s, r, Reopened(s, r), s');
    case LoseTable(n) => OtherTableKeeps(s, n, s');
    case LoseLog(n) => LoseLogKeeps(s, n, s');
    case Open(r) =>
      var t := Reopened(s, r);
      OpenKeeps(s, r, t, DeleteObsoleteFiles(t), s');
  }

  lemma StepKeeps(s: State, step: Step, s': State)
    requires Inv(s) && Enabled(s, step) && s' == Apply(s, step)
    ensures Inv(s')
  {
    match step
    case Write(w) => WriterKeeps(s, w, s');
    case Flushing(f) => FlushKeeps(s, f, s');
    case Compacting(j) => JobKeeps(s, j, s');
    case Use(r) => ReaderKeeps(s, r, s');
    case Life(l) => LifeKeeps(s, l, s');
  }

  lemma {:induction false} RunKeepsInv(run: seq<State>, steps: seq<Step>, i: nat)
    requires IsRun(run, steps) && i <= |steps|
    ensures Inv(run[i])
  {
    if i == 0 {
      CreatedInv();
    } else {
      RunKeepsInv(run, steps, i - 1);
      assert StepAt(run, steps, i - 1);
      StepKeeps(run[i - 1], steps[i - 1], run[i]);
    }
  }

  // ----- what a step leaves in place -----

  /** All records a state knows about. */
  function Known(s: State): set<Record> {
    s.h.committed + s.h.unacked + s.InFlight()
  }

  /** Committed records stay, and no record appears but the one a leader starts. */
  ghost predicate KeepsRecords(s: State, s': State, started: set<Record>) {
    s.h.committed <= s'.h.committed && Known(s') <= Known(s) + started
  }

  function Started(step: Step, s': State): set<Record> {
    if step == Write(StartGroup) then s'.InFlight() else {}
  }

  /** Outputs of a running flush or compaction stay, and so do the logs still needed. */
  ghost predicate KeepsFiles(s: State, s': State) {
    && (forall n | n in s.tables && n in JobOutputs(s'.job) + FlushNumbers(s'.flush) :: n in s'.tables)
    && (forall n | n in s.logs && s'.version.logNumber <= n :: n in s'.logs && s.logs[n] <= s'.logs[n])
  }

  /** Clearing the immutable memtable, recording an error, and ending background work all wake the writers. */
  predicate Wakes(s: State, s': State) {
    || !s'.waiting
    || ((s.imm.Some? ==> s'.imm.Some?) && (s'.bgError ==> s.bgError) && (s.BackgroundRunning() ==> s'.BackgroundRunning())
        && (s.scheduled ==> s'.scheduled))
  }

  lemma WriterCarries(s: State, w: WriterStep, s': State)
    requires WriterEnabled(s, w) && s' == ApplyWriter(s, w) && InvNumbers(s)
    ensures KeepsRecords(s, s', if w.StartGroup? then s'.InFlight() else {}) && KeepsFiles(s, s') && Wakes(s, s')
  {
  }

  lemma FlushCarries(s: State, f: FlushStep, s': State)
    requires FlushEnabled(s, f) && s' == ApplyFlush(s, f) && InvJob(s)
    ensures KeepsRecords(s, s', {}) && KeepsFiles(s, s') && Wakes(s, s')
  {
  }

  lemma JobCarries(s: State, j: JobStep, s': State)
    requires JobEnabled(s, j) && s' == ApplyJob(s, j) && InvFlush(s)
    ensures KeepsRecords(s, s', {}) && KeepsFiles(s, s') && Wakes(s, s')
  {
  }

  lemma ReaderCarries(s: State, r: ReaderStep, s': State)
    requires ReaderEnabled(s, r) && s' == ApplyReader(s, r)
    ensures KeepsRecords(s, s', {}) && KeepsFiles(s, s') && Wakes(s, s')
  {
  }

  lemma LifeCarries(s: State, l: LifeStep, s': State)
    requires Inv(s) && LifeEnabled(s, l) && s' == ApplyLife(s, l)
    ensures KeepsRecords(s, s', {})
  {
  }

  lemma StepCarries(s: State, step: Step, s': State)
    requires Inv(s) && Enabled(s, step) && s' == Apply(s, step)
    ensures KeepsRecords(s, s', Started(step, s'))
    ensures s.open && s'.open ==> KeepsFiles(s, s') && Wakes(s, s')
  {
    match step
    case Write(w) => WriterCarries(s, w, s');
    case Flushing(f) => FlushCarries(s, f, s');
    case Compacting(j) => JobCarries(s, j, s');
    case Use(r) => ReaderCarries(s, r, s');
    case Life(l) => LifeCarries(s, l, s');
  }

  lemma RunRecords(run: seq<State>, steps: seq<Step>, i: nat)
    requires IsRun(run, steps) && i < |steps|
    ensures KeepsRecords(run[i], run[i + 1], Started(steps[i], run[i + 1]))
  {
    RunKeepsInv(run, steps, i);
    assert StepAt(run, steps, i);
    StepCarries(run[i], steps[i], run[i + 1]);
  }

  // ----- durability -----

  lemma {:induction false} CommittedGrows(run: seq<State>, steps: seq<Step>, i: nat, j: nat)
    requires IsRun(run, steps) && i <= j <= |steps|
    ensures run[i].h.committed <= run[j].h.committed
    decreases j
  {
    if i < j {
      CommittedGrows(run, steps, i, j - 1);
      RunRecords(run, steps, j - 1);
    }
  }

  lemma AcknowledgedIsCommitted(s: State, o: Outcome)
    requires InvQueue(s) && o in s.h.outcomes && o.ok && o.record.Some?
    ensures o.record.value in s.h.committed
  {
    var k :| 0 <= k < |s.h.outcomes| && s.h.outcomes[k] == o;
    assert GoodOutcome(o, s.h.base + Taken(s.h.outcomes[..k]) + 1, s.h.committed, s.h.unacked);
  }

  /** A write acknowledged at some point of a run is part of what every later state answers reads with, however
      many crashes, failed commits, flushes and compactions lie between. */
  lemma AcknowledgedWritesSurvive(run: seq<State>, steps: seq<Step>, i: nat, o: Outcome, j: nat, t: nat)
    requires IsRun(run, steps) && i <= j <= |steps|
    requires run[i].open && o in run[i].h.outcomes && o.ok && o.record.Some?
    requires run[j].open && run[j].h.floor <= t <= run[j].lastSequence
    ensures EntriesOf(o.record.value) <= run[j].Committed()
    ensures SameAt(run[j].Readable(), run[j].Committed(), t)
  {
    RunKeepsInv(run, steps, i);
    AcknowledgedIsCommitted(run[i], o);
    CommittedGrows(run, steps, i, j);
    EntriesInMono({o.record.value}, run[j].h.committed);
    assert EntriesIn({o.record.value}) == EntriesOf(o.record.value);
    RunKeepsInv(run, steps, j);
    ReadableIsCommitted(run[j], t);
  }

  /** Nor does a read that begins later, without a snapshot of its own, overlook it. */
  lemma AcknowledgedIsSeen(run: seq<State>, steps: seq<Step>, i: nat, o: Outcome, j: nat, e: Entry)
    requires IsRun(run, steps) && i <= j <= |steps|
    requires run[i].open && o in run[i].h.outcomes && o.ok && o.record.Some?
    requires run[j].open && e in EntriesOf(o.record.value)
    ensures e in run[j].Committed() && e.sequence <= run[j].lastSequence
  {
    RunKeepsInv(run, steps, i);
    AcknowledgedIsCommitted(run[i], o);
    CommittedGrows(run, steps, i, j);
    EntriesInMono({o.record.value}, run[j].h.committed);
    assert EntriesIn({o.record.value}) == EntriesOf(o.record.value);
    RunKeepsInv(run, steps, j);
  }

  /** A compaction goes by the oldest snapshot, or by the last sequence number if there is none. */
  lemma SmallestIsOldest(run: seq<State>, steps: seq<Step>, i: nat)
    requires IsRun(run, steps) && i <= |steps| && run[i].open
    ensures
      var s := run[i];
      var smallest := SmallestSnapshot(s.snapshots, s.lastSequence);
      if s.snapshots == [] then smallest == s.lastSequence
      else smallest in s.snapshots && forall t | t in s.snapshots :: smallest <= t
  {
    RunKeepsInv(run, steps, i);
  }

  /** At every snapshot still in use, reads are answered as by the set of all committed entries. */
  ghost predicate AnswersAsCommitted(s: State) {
    forall t | s.h.floor <= t <= s.lastSequence :: SameAt(s.Readable(), s.Committed(), t)
  }

  lemma ReadableAtAll(s: State)
    requires s.open && Inv(s)
    ensures AnswersAsCommitted(s)
  {
    forall t | s.h.floor <= t <= s.lastSequence ensures SameAt(s.Readable(), s.Committed(), t) {
      ReadableIsCommitted(s, t);
    }
  }

  /** Recovery brings back all that was committed, plus at most groups that were logged but never acknowledged,
      each under its original sequence numbers. */
  lemma RecoveryIsExact(run: seq<State>, steps: seq<Step>, i: nat, r: Recovery)
    requires IsRun(run, steps) && i < |steps| && steps[i] == Life(Open(r))
    ensures run[i].h.committed <= run[i + 1].h.committed <= run[i].h.committed + run[i].h.unacked
    ensures AnswersAsCommitted(run[i + 1])
    ensures forall q | q in run[i + 1].h.committed :: forall e | e in EntriesOf(q) :: e.sequence <= run[i + 1].lastSequence
  {
    RunKeepsInv(run, steps, i);
    RunKeepsInv(run, steps, i + 1);
    assert StepAt(run, steps, i);
    ReadableAtAll(run[i + 1]);
    forall q, e | q in run[i + 1].h.committed && e in EntriesOf(q) ensures e.sequence <= run[i + 1].lastSequence {
      EntriesInMono({q}, run[i + 1].h.committed);
      assert e in EntriesIn({q});
    }
  }

  /** At every moment of every run, also in the middle of opening, flushing and compacting, the disk answers as all
      committed writes do, together with the groups that a live log holds although nobody acknowledged them. */
  lemma DiskAnswersAsCommitted(run: seq<State>, steps: seq<Step>, i: nat, t: nat)
    requires IsRun(run, steps) && i <= |steps| && run[i].h.floor <= t
    ensures SameAt(run[i].OnDisk(), run[i].Committed() + LiveEntries(run[i].logs, run[i].manifest.logNumber), t)
    ensures LiveRecords(run[i].logs, run[i].manifest.logNumber) <= Known(run[i])
  {
    RunKeepsInv(run, steps, i);
    var s := if run[i].open then Crashed(run[i]) else run[i];
    if run[i].open {
      CrashKeeps(run[i], s);
    }
    DiskAnswers(s, t);
  }

  lemma LeaderStarts(s: State, step: Step, s': State, r: Record)
    requires Enabled(s, step) && s' == Apply(s, step) && r in Started(step, s')
    ensures step == Write(StartGroup) && CanLead(s.writers)
    ensures r == Record(s.lastSequence + 1, Merged(s.writers[..GroupSize(s.writers)]))
  {
  }

  /** Nothing is invented: every committed record was formed by a leader from batches in the queue. */
  lemma {:induction false} CommittedWasWritten(run: seq<State>, steps: seq<Step>, j: nat, r: Record) returns (i: nat)
    requires IsRun(run, steps) && j <= |steps| && r in Known(run[j])
    ensures i < j && steps[i] == Write(StartGroup) && CanLead(run[i].writers)
    ensures r == Record(run[i].lastSequence + 1, Merged(run[i].writers[..GroupSize(run[i].writers)]))
    decreases j
  {
    KnownLater(run, steps, j, r);
    if r in Known(run[j - 1]) {
      i := CommittedWasWritten(run, steps, j - 1, r);
    } else {
      i := j - 1;
      NewlyKnown(run, steps, i, r);
    }
  }

  lemma KnownLater(run: seq<State>, steps: seq<Step>, j: nat, r: Record)
    requires IsRun(run, steps) && j <= |steps| && r in Known(run[j])
    ensures j > 0
  {
  }

  lemma NewlyKnown(run: seq<State>, steps: seq<Step>, i: nat, r: Record)
    requires IsRun(run, steps) && i < |steps| && r in Known(run[i + 1]) && r !in Known(run[i])
    ensures steps[i] == Write(StartGroup) && CanLead(run[i].writers)
    ensures r == Record(run[i].lastSequence + 1, Merged(run[i].writers[..GroupSize(run[i].writers)]))
  {
    RunRecords(run, steps, i);
    assert StepAt(run, steps, i);
    LeaderStarts(run[i], steps[i], run[i + 1], r);
  }

  /** A recovering process finds every table its manifest names, and every record carries a real sequence number. */
  lemma RecoveryFindsItsFiles(run: seq<State>, steps: seq<Step>, i: nat)
    requires IsRun(run, steps) && i <= |steps| && !run[i].open
    ensures run[i].manifest.tables <= run[i].tables.Keys
    ensures forall r | r in LiveRecords(run[i].logs, run[i].manifest.logNumber) :: r.first >= 1
  {
    RunKeepsInv(run, steps, i);
    forall r | r in LiveRecords(run[i].logs, run[i].manifest.logNumber) ensures r.first >= 1 {
      var j := CommittedWasWritten(run, steps, i, r);
    }
  }

  // ----- sequence numbers -----

  /** The ranges of two records do not meet. */
  predicate Apart(r: Record, q: Record) {
    r == q || r.ops == [] || q.ops == [] || r.first + |r.ops| <= q.first || q.first + |q.ops| <= r.first
  }

  ghost predicate AllApart(records: set<Record>) {
    forall r, q {:trigger Apart(r, q)} | r in records && q in records :: Apart(r, q)
  }

  lemma KnownLength(s: State, r: Record)
    requires InvLogs(s) && s.group.None? && r in Known(s)
    ensures r.ops == [] || r.first + |r.ops| <= s.lastSequence + 1
  {
    if r.ops != [] {
      EntriesInMono({r}, if r in s.h.committed then s.h.committed else s.h.unacked);
      assert EntriesIn({r}) == EntriesOf(r);
      assert EntryAt(r, |r.ops| - 1) in EntriesOf(r);
    }
  }

  lemma StartedIsApart(s: State, step: Step, s': State)
    requires Inv(s) && Enabled(s, step) && s' == Apply(s, step) && AllApart(Known(s))
    ensures AllApart(Known(s) + Started(step, s'))
  {
    if step == Write(StartGroup) {
      forall r, q | r in Known(s) && q in s'.InFlight() ensures Apart(r, q) && Apart(q, r) {
        KnownBeforeStarted(s, s', r, q);
      }
      OneMoreApart(Known(s), s'.InFlight());
    }
  }

  lemma KnownBeforeStarted(s: State, s': State, r: Record, q: Record)
    requires Inv(s) && Enabled(s, Write(StartGroup)) && s' == Apply(s, Write(StartGroup))
    requires r in Known(s) && q in s'.InFlight()
    ensures Apart(r, q) && Apart(q, r)
  {
    KnownLength(s, r);
  }

  lemma OneMoreApart(records: set<Record>, more: set<Record>)
    requires AllApart(records) && (forall r, q | r in more && q in more :: r == q)
    requires forall r, q | r in records && q in more :: Apart(r, q) && Apart(q, r)
    ensures AllApart(records + more)
  {
  }

  lemma FewerStayApart(few: set<Record>, many: set<Record>)
    requires few <= many && AllApart(many)
    ensures AllApart(few)
  {
  }

  lemma {:induction false} RecordsStayApart(run: seq<State>, steps: seq<Step>, i: nat)
    requires IsRun(run, steps) && i <= |steps|
    ensures AllApart(Known(run[i]))
  {
    if i > 0 {
      RecordsStayApart(run, steps, i - 1);
      RunKeepsInv(run, steps, i - 1);
      RunRecords(run, steps, i - 1);
      assert StepAt(run, steps, i - 1);
      StartedIsApart(run[i - 1], steps[i - 1], run[i]);
      FewerStayApart(Known(run[i]), Known(run[i - 1]) + Started(steps[i - 1], run[i]));
    }
  }

  /** Over a whole run, crashes included, no sequence number ever names two different committed entries. */
  lemma NumbersAreNeverReused(run: seq<State>, steps: seq<Step>, i: nat)
    requires IsRun(run, steps) && i <= |steps|
    ensures forall e, f | e in run[i].Committed() && f in run[i].Committed() && e.sequence == f.sequence :: e == f
  {
    RecordsStayApart(run, steps, i);
    KnownAreUnique(run[i].h.committed);
  }

  /** What a lookup relies on holds in every state: one entry per key and number, and newer layers come first. */
  lemma LayersAreOrdered(run: seq<State>, steps: seq<Step>, i: nat)
    requires IsRun(run, steps) && i <= |steps| && run[i].open
    ensures OneEntryPerNumber(run[i].Readable())
    ensures AllNewer(run[i].mem, run[i].ImmEntries())
    ensures AllNewer(run[i].mem + run[i].ImmEntries(), TableEntries(run[i].tables, run[i].version.tables))
  {
    RunKeepsInv(run, steps, i);
    RecordsStayApart(run, steps, i);
    assert run[i].Readable() <= EntriesIn(Known(run[i])) by {
      EntriesInMono(run[i].h.committed, Known(run[i]));
      EntriesInMono(run[i].InFlight(), Known(run[i]));
      if run[i].group.Some? {
        RecordRange(run[i].group.value.record, run[i].group.value.inserted);
        assert EntriesIn(run[i].InFlight()) == EntriesOf(run[i].group.value.record);
      }
    }
    KnownAreUnique(Known(run[i]));
  }

  lemma KnownAreUnique(records: set<Record>)
    requires AllApart(records)
    ensures forall e, f | e in EntriesIn(records) && f in EntriesIn(records) && e.sequence == f.sequence :: e == f
  {
    forall e, f | e in EntriesIn(records) && f in EntriesIn(records) && e.sequence == f.sequence ensures e == f {
      var r :| r in records && e in EntriesOf(r);
      var q :| q in records && f in EntriesOf(q);
      assert Apart(r, q);
    }
  }

  // ----- readers -----

  /** An open reader keeps answering for its snapshot, through flushes, compactions and garbage collection, and
      whatever newer entries the memtable it holds has gained since. */
  lemma ReadersStayCorrect(run: seq<State>, steps: seq<Step>, i: nat, r: Reader, gained: set<Entry>)
    requires IsRun(run, steps) && i <= |steps| && run[i].open && r in run[i].readers
    requires forall e | e in gained :: e.sequence > r.snapshot
    ensures r.tables <= run[i].tables.Keys
    ensures SameAt(r.memory + TableEntries(run[i].tables, r.tables) + gained, run[i].Committed(), r.snapshot)
  {
    RunKeepsInv(run, steps, i);
    assert ReaderHolds(r, run[i].tables, Writing(run[i].flush, run[i].job), run[i].Committed(), run[i].lastSequence);
    UnseenEntries(r.memory + TableEntries(run[i].tables, r.tables), gained, r.snapshot);
  }

  /** Snapshots, readers, and a read started now see whole groups only, also those being inserted. */
  lemma GroupsAreAtomic(run: seq<State>, steps: seq<Step>, i: nat, q: Record)
    requires IsRun(run, steps) && i <= |steps| && run[i].open && q in Known(run[i])
    ensures Whole(q, run[i].lastSequence)
    ensures forall k | 0 <= k < |run[i].snapshots| :: Whole(q, run[i].snapshots[k])
    ensures forall r | r in run[i].readers :: Whole(q, r.snapshot)
  {
    RunKeepsInv(run, steps, i);
    CurrentSeesWhole(run[i], q);
  }

  // ----- group commit -----

  function NumbersOf(o: Outcome): nat {
    if o.record.Some? then |o.record.value.ops| else 0
  }

  lemma {:induction false} TakenBetween(outcomes: seq<Outcome>, i: nat, j: nat)
    requires i < j <= |outcomes|
    ensures Taken(outcomes[..j]) == Taken(outcomes[..i]) + NumbersOf(outcomes[i]) + Taken(outcomes[i + 1..j])
  {
    assert outcomes[..j][..j - 1] == outcomes[..j - 1];
    if i < j - 1 {
      TakenBetween(outcomes, i, j - 1);
      assert outcomes[i + 1..j][..j - 1 - (i + 1)] == outcomes[i + 1..j - 1];
    }
  }

  lemma {:induction false} NoneTaken(outcomes: seq<Outcome>)
    requires forall o | o in outcomes :: o.record.None?
    ensures Taken(outcomes) == 0
  {
    if outcomes != [] {
      assert outcomes[|outcomes| - 1] in outcomes;
      NoneTaken(outcomes[..|outcomes| - 1]);
    }
  }

  /** Writers leave the queue in the order they came, and their groups take consecutive ranges of sequence numbers;
      a writer that asked for a sync and was told OK was in a group that was synced. */
  lemma GroupsAreSerial(run: seq<State>, steps: seq<Step>, n: nat, i: nat, j: nat)
    requires IsRun(run, steps) && n <= |steps| && run[n].open && i < j < |run[n].h.outcomes|
    ensures MembersOf(run[n].h.outcomes) <= run[n].h.arrived
    ensures
      var outcomes := run[n].h.outcomes;
      var a, b := outcomes[i], outcomes[j];
      && (a.record.Some? && b.record.Some? ==>
            a.record.value.first + |a.record.value.ops| + Taken(outcomes[i + 1..j]) == b.record.value.first)
      && (a.record.Some? && b.record.Some? && (forall o | o in outcomes[i + 1..j] :: o.record.None?) ==>
            a.record.value.first + |a.record.value.ops| == b.record.value.first)
      && (a.record.Some? ==> a.record.value.ops == Merged(a.members))
      && (a.record.Some? && a.ok ==> forall w | w in a.members && w.sync :: a.synced)
  {
    RunKeepsInv(run, steps, n);
    var outcomes := run[n].h.outcomes;
    TakenBetween(outcomes, i, j);
    if forall o | o in outcomes[i + 1..j] :: o.record.None? {
      NoneTaken(outcomes[i + 1..j]);
    }
    assert GoodOutcome(outcomes[i], run[n].h.base + Taken(outcomes[..i]) + 1, run[n].h.committed, run[n].h.unacked);
    assert GoodOutcome(outcomes[j], run[n].h.base + Taken(outcomes[..j]) + 1, run[n].h.committed, run[n].h.unacked);
  }

  // ----- no needed file is deleted -----

  /** Tables someone still needs: the current version, open readers, the manifest on disk, and the outputs a
      running flush or compaction will install. */
  function Needed(s: State): set<nat> {
    s.version.tables + PinnedTables(s.readers) + s.manifest.tables + JobOutputs(s.job) + FlushNumbers(s.flush)
  }

  lemma NeededIsThere(s: State, s': State)
    requires s'.open && Inv(s') && KeepsFiles(s, s') && Wakes(s, s')
    ensures forall n | n in s.tables && n in Needed(s') :: n in s'.tables
    ensures LiveRecords(s.logs, s'.manifest.logNumber) <= LiveRecords(s'.logs, s'.manifest.logNumber)
  {
    forall n | n in s.tables && n in PinnedTables(s'.readers) ensures n in s'.tables {
      var r :| r in s'.readers && n in r.tables;
      assert ReaderHolds(r, s'.tables, Writing(s'.flush, s'.job), s'.Committed(), s'.lastSequence);
    }
  }

  lemma StepDeletesNothingNeeded(s: State, step: Step, s': State)
    requires Inv(s) && Enabled(s, step) && s' == Apply(s, step) && s.open && s'.open
    ensures forall n | n in s.tables && n in Needed(s') :: n in s'.tables
    ensures LiveRecords(s.logs, s'.manifest.logNumber) <= LiveRecords(s'.logs, s'.manifest.logNumber)
  {
    StepKeeps(s, step, s');
    StepCarries(s, step, s');
    NeededIsThere(s, s');
  }

  /** No step removes a needed table, or a record of a log the manifest still needs. */
  lemma NothingNeededIsDeleted(run: seq<State>, steps: seq<Step>, i: nat)
    requires IsRun(run, steps) && i < |steps| && run[i].open && run[i + 1].open
    ensures forall n | n in run[i].tables && n in Needed(run[i + 1]) :: n in run[i + 1].tables
    ensures LiveRecords(run[i].logs, run[i + 1].manifest.logNumber) <= LiveRecords(run[i + 1].logs, run[i + 1].manifest.logNumber)
  {
    RunKeepsInv(run, steps, i);
    assert StepAt(run, steps, i);
    StepDeletesNothingNeeded(run[i], steps[i], run[i + 1]);
  }

  // ----- no stuck writer -----

  /** Pending work has a background call whenever the mutex is free, and a writer sleeps only while one runs
      that will wake it. */
  lemma PendingWorkIsScheduled(run: seq<State>, steps: seq<Step>, i: nat)
    requires IsRun(run, steps) && i <= |steps| && run[i].open
    ensures !run[i].bgError && !run[i].shuttingDown && run[i].imm.Some? ==> run[i].scheduled
    ensures run[i].waiting ==> run[i].scheduled && !run[i].bgError && run[i].group.None?
  {
    RunKeepsInv(run, steps, i);
  }

  /** Whatever a sleeping writer may be waiting for, it is woken when it happens. */
  lemma SleepersAreWoken(run: seq<State>, steps: seq<Step>, i: nat)
    requires IsRun(run, steps) && i < |steps| && run[i].open && run[i + 1].open
    ensures run[i].imm.Some? && run[i + 1].imm.None? ==> !run[i + 1].waiting
    ensures !run[i].bgError && run[i + 1].bgError ==> !run[i + 1].waiting
    ensures run[i].BackgroundRunning() && !run[i + 1].BackgroundRunning() ==> !run[i + 1].waiting
  {
    RunKeepsInv(run, steps, i);
    assert StepAt(run, steps, i);
    StepCarries(run[i], steps[i], run[i + 1]);
  }
}
