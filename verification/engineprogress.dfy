/** A sleeping writer can always be served: the background thread can work its way to the end of its call. */
module EngineProgress {
  import opened Common
  import opened DbFormat
  import opened Store
  import opened CompactionWork
  import opened Engine
  import opened EngineInvariant
  import opened EngineProof
  import opened EngineTheorems

  /** A background step in which nothing fails. */
  predicate Advances(step: Step) {
    match step
    case Flushing(f) => !f.FlushFails? && !f.AbortFlush?
    case Compacting(j) => !j.JobFails? && !j.AbortJob?
    case _ => false
  }

  ghost predicate Hop(s: State, step: Step, u: State) {
    Enabled(s, step) && Advances(step) && u == Apply(s, step)
  }

  /** What a sleeping writer waits for: no memtable is left to flush, nothing failed, and it is awake. */
  predicate Served(t: State) {
    t.open && !t.waiting && t.imm.None? && !t.bgError
  }

  ghost predicate LinkAt<S, T>(links: (S, T, S) -> bool, path: seq<S>, work: seq<T>, i: nat)
    requires i < |work| < |path|
  {
    links(path[i], work[i], path[i + 1])
  }

  ghost predicate Linked<S, T>(links: (S, T, S) -> bool, path: seq<S>, work: seq<T>) {
    && |path| == |work| + 1
    && forall i {:trigger LinkAt(links, path, work, i)} | 0 <= i < |work| :: LinkAt(links, path, work, i)
  }

  lemma LinkedMore<S, T>(links: (S, T, S) -> bool, s: S, step: T, path: seq<S>, work: seq<T>)
    requires Linked(links, path, work) && links(s, step, path[0])
    ensures Linked(links, [s] + path, [step] + work)
  {
    var path', work' := [s] + path, [step] + work;
    forall i | 0 <= i < |work'| ensures LinkAt(links, path', work', i) {
      if i > 0 {
        assert LinkAt(links, path, work, i - 1);
      }
    }
  }

  /** Background steps without a failure, and the states they lead through. */
  ghost predicate Leads(s: State, path: seq<State>, work: seq<Step>) {
    Linked(Hop, path, work) && path[0] == s && Served(path[|work|])
  }

  lemma OneStep(s: State, step: Step, u: State, path: seq<State>, work: seq<Step>)
    requires Hop(s, step, u) && Leads(u, path, work)
    ensures Leads(s, [s] + path, [step] + work)
  {
    LinkedMore(Hop, s, step, path, work);
  }

  /** The background thread is in working order. */
  predicate Working(s: State) {
    && s.open && !s.shuttingDown && !s.bgError && s.scheduled && CommitHolds(s.flush, s.job, s.commit)
    && (s.flush.Some? ==> s.imm.Some?) && (s.job.Some? ==> InBounds(s.job.value))
  }

  /** An output is open only while there is something left to write to it. */
  predicate InBounds(j: Job) {
    && j.done <= |j.AllKept()| && (j.current.Some? ==> j.done < |j.AllKept()|)
    && (j.committing ==> j.current.None? && j.done == |j.AllKept()|)
  }

  predicate Flushes(s: State, phase: FlushPhase, written: bool) {
    && Working(s) && s.flush.Some? && s.flush.value.phase == phase
    && (phase.Committing? ==> s.commit.value.written == written)
  }

  lemma BuildGoesOn(s: State, u: State)
    requires Flushes(s, Building, false) && u == TableBuilt(s)
    ensures Hop(s, Flushing(BuildTable), u) && Flushes(u, Built, false)
  {
  }

  lemma CommitGoesOn(s: State, u: State)
    requires Flushes(s, Built, false) && u == FlushCommitting(s)
    ensures Hop(s, Flushing(CommitFlush), u) && Flushes(u, Committing, false)
  {
  }

  lemma WriteGoesOn(s: State, u: State)
    requires Flushes(s, Committing, false) && u == FlushWritten(s)
    ensures Hop(s, Flushing(WriteFlushManifest), u)
    ensures Flushes(u, Committing, true)
  {
  }

  lemma InstallEnds(s: State, u: State, needs: bool, l0: bool)
    requires Flushes(s, Committing, true) && (l0 ==> needs) && u == FlushFinished(s, needs, l0)
    ensures Hop(s, Flushing(FinishFlush(needs, l0)), u) && Served(u)
  {
  }

  function FlushLeft(phase: FlushPhase, written: bool): nat {
    match phase
    case Building => 3
    case Built => 2
    case Committing => if written then 0 else 1
  }

  /** A running flush, alone or nested in a compaction, ends by installing the memtable's table. */
  lemma {:induction false} FlushEnds(s: State, phase: FlushPhase, written: bool, needs: bool, l0: bool)
    returns (path: seq<State>, work: seq<Step>)
    requires Flushes(s, phase, written) && (l0 ==> needs) && (written ==> phase.Committing?)
    ensures Leads(s, path, work)
    decreases FlushLeft(phase, written)
  {
    if phase.Building? {
      var u := TableBuilt(s);
      BuildGoesOn(s, u);
      path, work := FlushEnds(u, Built, false, needs, l0);
      OneStep(s, Flushing(BuildTable), u, path, work);
      path, work := [s] + path, [Flushing(BuildTable)] + work;
    } else if phase.Built? {
      var u := FlushCommitting(s);
      CommitGoesOn(s, u);
      path, work := FlushEnds(u, Committing, false, needs, l0);
      OneStep(s, Flushing(CommitFlush), u, path, work);
      path, work := [s] + path, [Flushing(CommitFlush)] + work;
    } else if !written {
      var u := FlushWritten(s);
      WriteGoesOn(s, u);
      path, work := FlushEnds(u, Committing, true, needs, l0);
      OneStep(s, Flushing(WriteFlushManifest), u, path, work);
      path, work := [s] + path, [Flushing(WriteFlushManifest)] + work;
    } else {
      var u := FlushFinished(s, needs, l0);
      InstallEnds(s, u, needs, l0);
      path, work := [u], [];
      OneStep(s, Flushing(FinishFlush(needs, l0)), u, path, work);
      path, work := [s] + path, [Flushing(FinishFlush(needs, l0))] + work;
    }
  }

  lemma FlushStarts(s: State, u: State)
    requires Working(s) && s.imm.Some? && s.flush.None? && (s.job.Some? ==> !s.job.value.committing)
    requires u == FlushStarted(s)
    ensures Hop(s, Flushing(StartFlush), u) && Flushes(u, Building, false)
  {
  }

  /** A waiting memtable is flushed: when a compaction runs, in the middle of it. */
  lemma MemtableIsFlushed(s: State, needs: bool, l0: bool) returns (path: seq<State>, work: seq<Step>)
    requires Working(s) && s.imm.Some? && s.flush.None? && (s.job.Some? ==> !s.job.value.committing) && (l0 ==> needs)
    ensures Leads(s, path, work)
  {
    var u := FlushStarted(s);
    FlushStarts(s, u);
    path, work := FlushEnds(u, Building, false, needs, l0);
    OneStep(s, Flushing(StartFlush), u, path, work);
    path, work := [s] + path, [Flushing(StartFlush)] + work;
  }

  predicate Commits(s: State, written: bool) {
    Working(s) && s.job.Some? && s.job.value.committing && s.commit.value.written == written
  }

  lemma JobWriteGoesOn(s: State, u: State)
    requires Commits(s, false) && u == JobWasWritten(s)
    ensures Hop(s, Compacting(WriteJobManifest), u) && Commits(u, true)
  {
  }

  lemma JobInstallEnds(s: State, u: State, needs: bool, l0: bool)
    requires Commits(s, true) && (l0 ==> needs) && u == JobFinished(s, needs, l0)
    ensures Hop(s, Compacting(FinishJob(needs, l0)), u)
    ensures !u.waiting && !u.bgError && u.open && u.job.None? && u.flush.None? && (u.imm.Some? ==> Working(u))
  {
  }

  /** The commit of a compaction goes through; a memtable that filled up meanwhile is flushed afterwards. */
  lemma {:induction false} CommitEnds(s: State, written: bool, needs: bool, l0: bool) returns (path: seq<State>, work: seq<Step>)
    requires Commits(s, written) && (l0 ==> needs)
    ensures Leads(s, path, work)
    decreases if written then 0 else 1
  {
    if !written {
      var u := JobWasWritten(s);
      JobWriteGoesOn(s, u);
      path, work := CommitEnds(u, true, needs, l0);
      OneStep(s, Compacting(WriteJobManifest), u, path, work);
      path, work := [s] + path, [Compacting(WriteJobManifest)] + work;
    } else {
      var u := JobFinished(s, needs, l0);
      JobInstallEnds(s, u, needs, l0);
      if u.imm.Some? {
        path, work := MemtableIsFlushed(u, needs, l0);
      } else {
        path, work := [u], [];
      }
      OneStep(s, Compacting(FinishJob(needs, l0)), u, path, work);
      path, work := [s] + path, [Compacting(FinishJob(needs, l0))] + work;
    }
  }

  predicate Compacts(s: State) {
    Working(s) && JobWorks(s)
  }

  lemma OutputOpens(s: State, u: State)
    requires Compacts(s) && s.job.value.current.None? && s.job.value.done < |s.job.value.AllKept()|
    requires u == OutputOpened(s)
    ensures Hop(s, Compacting(OpenOutput), u) && Compacts(u) && u.job.value.current.Some?
  {
  }

  lemma OutputGoesOn(s: State, count: nat, u: State)
    requires Compacts(s) && s.job.value.current.Some? && s.job.value.done + count == |s.job.value.AllKept()|
    requires u == OutputWritten(s, count)
    ensures Hop(s, Compacting(WriteOutput(count)), u)
    ensures Compacts(u) && u.job.value.current.None? && u.job.value.done == |u.job.value.AllKept()|
  {
  }

  lemma JobCommitGoesOn(s: State, u: State)
    requires Compacts(s) && s.job.value.current.None? && s.job.value.done == |s.job.value.AllKept()|
    requires u == JobCommitting(s)
    ensures Hop(s, Compacting(CommitJob), u) && Commits(u, false)
  {
  }

  lemma JobCommits(s: State, needs: bool, l0: bool) returns (path: seq<State>, work: seq<Step>)
    requires Compacts(s) && s.job.value.current.None? && s.job.value.done == |s.job.value.AllKept()| && (l0 ==> needs)
    ensures Leads(s, path, work)
  {
    var u := JobCommitting(s);
    JobCommitGoesOn(s, u);
    path, work := CommitEnds(u, false, needs, l0);
    OneStep(s, Compacting(CommitJob), u, path, work);
    path, work := [s] + path, [Compacting(CommitJob)] + work;
  }

  /** The rest of what is kept goes to the open output. */
  lemma OutputEnds(s: State, needs: bool, l0: bool) returns (path: seq<State>, work: seq<Step>)
    requires Compacts(s) && s.job.value.current.Some? && (l0 ==> needs)
    ensures Leads(s, path, work)
  {
    var count := |s.job.value.AllKept()| - s.job.value.done;
    var u := OutputWritten(s, count);
    OutputGoesOn(s, count, u);
    path, work := JobCommits(u, needs, l0);
    OneStep(s, Compacting(WriteOutput(count)), u, path, work);
    path, work := [s] + path, [Compacting(WriteOutput(count))] + work;
  }

  /** A compaction writes what is left to write, and commits. */
  lemma JobEnds(s: State, needs: bool, l0: bool) returns (path: seq<State>, work: seq<Step>)
    requires Compacts(s) && (l0 ==> needs)
    ensures Leads(s, path, work)
  {
    if s.job.value.current.Some? {
      path, work := OutputEnds(s, needs, l0);
    } else if s.job.value.done == |s.job.value.AllKept()| {
      path, work := JobCommits(s, needs, l0);
    } else {
      var u := OutputOpened(s);
      OutputOpens(s, u);
      path, work := OutputEnds(u, needs, l0);
      OneStep(s, Compacting(OpenOutput), u, path, work);
      path, work := [s] + path, [Compacting(OpenOutput)] + work;
    }
  }

  lemma CallEnds(s: State, u: State)
    requires Working(s) && s.flush.None? && s.job.None? && s.imm.None? && u == FinishBackgroundCall(s)
    ensures Hop(s, Compacting(BackgroundIdle), u) && Served(u)
  {
  }

  lemma SleeperHasWorker(s: State)
    requires s.open && InvFlush(s) && InvJob(s) && InvSchedule(s) && s.waiting
    ensures Working(s)
  {
  }

  /** From every state of a run in which a writer sleeps, background steps none of which fails lead to the end of the
      call: the writer is awake and no memtable waits to be flushed, whatever the new version needs next. */
  lemma SleepersAreServed(run: seq<State>, steps: seq<Step>, i: nat, needs: bool, l0: bool)
    returns (path: seq<State>, work: seq<Step>)
    requires IsRun(run, steps) && i <= |steps| && run[i].open && run[i].waiting && (l0 ==> needs)
    ensures Leads(run[i], path, work)
  {
    RunKeepsInv(run, steps, i);
    SleeperHasWorker(run[i]);
    path, work := WorkerServes(run[i], needs, l0);
  }

  /** Nothing picked: the call ends. */
  lemma IdleServes(s: State) returns (path: seq<State>, work: seq<Step>)
    requires Working(s) && s.flush.None? && s.imm.None? && s.job.None?
    ensures Leads(s, path, work)
  {
    var u := FinishBackgroundCall(s);
    CallEnds(s, u);
    path, work := [u], [];
    OneStep(s, Compacting(BackgroundIdle), u, path, work);
    path, work := [s] + path, [Compacting(BackgroundIdle)] + work;
  }

  lemma WorkerServes(s: State, needs: bool, l0: bool) returns (path: seq<State>, work: seq<Step>)
    requires Working(s) && (l0 ==> needs)
    ensures Leads(s, path, work)
  {
    if s.flush.Some? {
      var phase := s.flush.value.phase;
      path, work := FlushEnds(s, phase, phase.Committing? && s.commit.value.written, needs, l0);
    } else if s.job.Some? && s.job.value.committing {
      path, work := CommitEnds(s, s.commit.value.written, needs, l0);
    } else if s.imm.Some? {
      path, work := MemtableIsFlushed(s, needs, l0);
    } else {
      if s.job.Some? {
        path, work := JobEnds(s, needs, l0);
      } else {
        path, work := IdleServes(s);
      }
    }
  }

  // ----- however the steps are chosen -----

  /** The background thread has not turned to anything yet. */
  predicate IsUnpicked(s: State) {
    s.flush.None? && s.job.None?
  }

  function JobLeft(job: Option<Job>, commit: Option<Commit>): int {
    match job
    case None => 0
    case Some(j) =>
      if j.committing then (if commit.Some? && commit.value.written then 1 else 2)
      else 3 + 2 * (|j.AllKept()| - j.done) + if j.current.Some? then 0 else 1
  }

  function MemtableLeft(s: State): nat {
    match s.flush
    case None => if s.imm.Some? then 5 else 0
    case Some(f) => 1 + FlushLeft(f.phase, s.commit.Some? && s.commit.value.written)
  }

  /** What is left to do before the background thread wakes the writers. */
  function Left(s: State): int {
    JobLeft(s.job, s.commit) + MemtableLeft(s)
  }

  predicate IsCloser(u: State, s: State) {
    || (IsUnpicked(s) && !IsUnpicked(u))
    || (IsUnpicked(s) == IsUnpicked(u) && 0 <= Left(u) < Left(s))
  }

  lemma FlushComesCloser(s: State, step: FlushStep, u: State)
    requires Working(s) && FlushEnabled(s, step) && Advances(Flushing(step)) && u == ApplyFlush(s, step)
    ensures !u.waiting || IsCloser(u, s)
  {
  }

  lemma JobComesCloser(s: State, step: JobStep, u: State)
    requires Working(s) && JobEnabled(s, step) && Advances(Compacting(step)) && u == ApplyJob(s, step)
    ensures !u.waiting || IsCloser(u, s)
  {
  }

  lemma WriterStays(s: State, step: WriterStep, u: State)
    requires WriterEnabled(s, step) && s.waiting && s.group.None? && u == ApplyWriter(s, step)
    ensures IsUnpicked(u) == IsUnpicked(s) && Left(u) == Left(s)
  {
  }

  lemma ReaderStays(s: State, step: ReaderStep, u: State)
    requires ReaderEnabled(s, step) && u == ApplyReader(s, step)
    ensures IsUnpicked(u) == IsUnpicked(s) && Left(u) == Left(s)
  {
  }

  lemma StepComesCloser(s: State, step: Step, u: State)
    requires Working(s) && s.waiting && s.group.None? && Enabled(s, step) && u == Apply(s, step)
    requires step.Write? || step.Use? || Advances(step)
    ensures !u.waiting ||
            if Advances(step) then IsCloser(u, s) else IsUnpicked(u) == IsUnpicked(s) && Left(u) == Left(s)
  {
    match step
    case Write(w) => WriterStays(s, w, u);
    case Use(r) => ReaderStays(s, r, u);
    case Flushing(f) => FlushComesCloser(s, f, u);
    case Compacting(j) => JobComesCloser(s, j, u);
  }

  /** Whichever background steps are taken, and whatever writers and readers do meanwhile: while a writer sleeps, every
      background step that does not fail wakes it or comes closer to the step that does, and nobody else moves away. */
  lemma SleepersWaitLess(run: seq<State>, steps: seq<Step>, i: nat)
    requires IsRun(run, steps) && i < |steps| && run[i].open && run[i].waiting
    requires steps[i].Write? || steps[i].Use? || Advances(steps[i])
    ensures !run[i + 1].waiting ||
            if Advances(steps[i]) then IsCloser(run[i + 1], run[i])
            else IsUnpicked(run[i + 1]) == IsUnpicked(run[i]) && Left(run[i + 1]) == Left(run[i])
  {
    RunKeepsInv(run, steps, i);
    SleeperHasWorker(run[i]);
    assert StepAt(run, steps, i);
    StepComesCloser(run[i], steps[i], run[i + 1]);
  }
}
