/** From the compaction loop to the engine: what the loop wrote is what the engine installs. */
module CompactionJob {
  import opened Common
  import opened DbFormat
  import opened Store
  import opened CompactionWork
  import opened CompactionOutputs
  import opened Engine
  import opened EngineInvariant
  import opened EngineJob
  import opened EngineTheorems

  /** The answer of the loop about its outputs, with the base-level test of the levels below. */
  ghost predicate LoopWrote(
      cmp: Comparator, deeper: seq<seq<FileMetaData>>, isBase: Bytes -> bool, input: seq<Entry>, smallestSnapshot: nat,
      outputs: seq<Output>)
  {
    && IsTotalOrder(cmp) && Sorted(cmp, input) && (forall k :: isBase(k) == AtBaseLevel(cmp, deeper, k))
    && Concat(outputs) == Kept(input, smallestSnapshot, isBase, |input|)
  }

  /** A whole compaction: in a store whose other levels are where the version says, the output files in place of the
      inputs answer every read at a live snapshot as the inputs did. */
  lemma CompactedFilesAnswerAlike(
      cmp: Comparator, deeper: seq<seq<FileMetaData>>, isBase: Bytes -> bool, input: seq<Entry>, smallestSnapshot: nat,
      outputs: seq<Output>, above: set<Entry>, below: set<Entry>, snapshot: nat)
    requires LoopWrote(cmp, deeper, isBase, input, smallestSnapshot, outputs)
    requires LevelsHold(cmp, deeper, SetOf(input), above, below)
    requires smallestSnapshot < MAX_SEQUENCE_NUMBER && smallestSnapshot <= snapshot
    ensures SameAt(above + below + SetOf(input), above + below + SetOf(Concat(outputs)), snapshot)
  {
    BaseLevelAnswersSuffice(cmp, deeper, isBase, SetOf(input), above, below);
    CompactionPreservesReads(cmp, input, smallestSnapshot, isBase, above + below, snapshot);
  }

  /** A compaction picked from a version may start: the engine's condition on the base-level test follows from where
      the other tables of the version are. */
  lemma PickedMayStart(
      s: State, cmp: Comparator, deeper: seq<seq<FileMetaData>>, isBase: Bytes -> bool, inputs: set<nat>,
      input: seq<Entry>, above: set<nat>, below: set<nat>)
    requires s.scheduled && !s.BackgroundRunning() && !s.shuttingDown && !s.bgError && s.imm.None?
    requires inputs != {} && inputs <= s.version.tables && s.version.tables - inputs == above + below
    requires IsTotalOrder(cmp) && Sorted(cmp, input) && SetOf(input) == TableEntries(s.tables, inputs)
    requires RepeatsAreShared(s.tables, inputs, input)
    requires (forall k :: isBase(k) == AtBaseLevel(cmp, deeper, k)) && s.lastSequence < MAX_SEQUENCE_NUMBER
    requires LevelsHold(cmp, deeper, SetOf(input), TableEntries(s.tables, above), TableEntries(s.tables, below))
    ensures JobEnabled(s, StartJob(cmp, inputs, input, isBase))
  {
    BaseLevelAnswersSuffice(cmp, deeper, isBase, SetOf(input), TableEntries(s.tables, above), TableEntries(s.tables, below));
    assert TableEntries(s.tables, above + below) == TableEntries(s.tables, above) + TableEntries(s.tables, below);
  }

  // ----- the loop takes the engine's steps -----

  lemma {:induction false} ConcatSplit(outputs: seq<Output>, i: nat)
    requires i <= |outputs|
    ensures |Concat(outputs[..i])| <= |Concat(outputs)| && Concat(outputs[..i]) == Concat(outputs)[..|Concat(outputs[..i])|]
    ensures i < |outputs| ==>
              && |Concat(outputs[..i + 1])| == |Concat(outputs[..i])| + |outputs[i].entries| <= |Concat(outputs)|
              && Concat(outputs)[|Concat(outputs[..i])|..|Concat(outputs[..i + 1])|] == outputs[i].entries
    decreases |outputs|
  {
    if i == |outputs| {
      assert outputs[..i] == outputs;
    } else {
      var last := |outputs| - 1;
      ConcatSplit(outputs[..last], i);
      assert outputs[..last][..i] == outputs[..i];
      if i < last {
        assert outputs[..last][..i + 1] == outputs[..i + 1];
      } else {
        assert outputs[..i + 1] == outputs;
      }
    }
  }

  /** The compaction that runs has written the first i of the loop's outputs. */
  ghost predicate HasWritten(s: State, outputs: seq<Output>, i: nat)
    requires i <= |outputs|
  {
    JobWorks(s) && Concat(outputs) == s.job.value.AllKept() && s.job.value.done == |Concat(outputs[..i])|
  }

  /** The loop opens its next output, */
  lemma LoopMayOpen(s: State, outputs: seq<Output>, i: nat)
    requires i < |outputs| && HasWritten(s, outputs, i) && s.job.value.current.None? && outputs[i].BoundsHold()
    ensures JobEnabled(s, OpenOutput) && HasWritten(OutputOpened(s), outputs, i)
    ensures OutputOpened(s).job.value.current == Some(s.nextFile)
  {
    ConcatSplit(outputs, i);
  }

  /** may finish it, */
  lemma LoopMayWrite(s: State, outputs: seq<Output>, i: nat)
    requires i < |outputs| && HasWritten(s, outputs, i) && s.job.value.current.Some? && outputs[i].BoundsHold()
    ensures JobEnabled(s, WriteOutput(|outputs[i].entries|))
  {
    ConcatSplit(outputs, i);
  }

  /** and then the file holds exactly what the loop put into the output. */
  lemma LoopWrites(s: State, outputs: seq<Output>, i: nat, s': State)
    requires i < |outputs| && HasWritten(s, outputs, i) && JobEnabled(s, WriteOutput(|outputs[i].entries|))
    requires s' == OutputWritten(s, |outputs[i].entries|)
    ensures HasWritten(s', outputs, i + 1) && s'.job.value.current.None?
    ensures s'.tables == s.tables[s.job.value.current.value := SetOf(outputs[i].entries)]
  {
    ConcatSplit(outputs, i);
    assert s'.job.value.AllKept() == s.job.value.AllKept();
  }

  /** When all outputs are written, the compaction may commit. */
  lemma LoopMayCommit(s: State, outputs: seq<Output>)
    requires HasWritten(s, outputs, |outputs|) && s.job.value.current.None? && !s.shuttingDown
    ensures JobEnabled(s, CommitJob)
  {
    assert outputs[..|outputs|] == outputs;
  }

  // ----- outputs are disjoint -----

  /** In every state of every run, whatever outputs the loop makes of the compaction at work: each ends strictly before
      the next begins. Only repeats that all live snapshots see can reach a compaction, and rule (A) drops them. */
  lemma OutputsNeverTouch(run: seq<State>, steps: seq<Step>, i: nat, outputs: seq<Output>, a: nat, b: nat)
    requires IsRun(run, steps) && i <= |steps| && run[i].open && run[i].job.Some? && a < b < |outputs|
    requires Concat(outputs) == run[i].job.value.AllKept() && forall o | o in outputs :: o.BoundsHold()
    ensures outputs[a].largest.Some? && outputs[b].smallest.Some?
    ensures Precedes(run[i].job.value.cmp, outputs[a].largest.value, outputs[b].smallest.value)
  {
    RunKeepsInv(run, steps, i);
    var j := run[i].job.value;
    KeptIsDistinct(j);
    KeptSorted(j.cmp, j.input, j.snapshot, j.isBase, |j.input|);
    OutputsDisjoint(j.cmp, outputs, a, b);
  }

  /** In every state of every run, no two current tables share an entry that was written since the process began, and
      the finished outputs of a compaction share none at all. */
  lemma TablesShareNothing(run: seq<State>, steps: seq<Step>, i: nat, n: nat, m: nat, e: Entry)
    requires IsRun(run, steps) && i <= |steps| && run[i].open && n != m && n in run[i].tables && m in run[i].tables
    requires e in run[i].tables[n] && e in run[i].tables[m]
    ensures n in run[i].version.tables && m in run[i].version.tables ==> e.sequence <= run[i].h.base
    ensures !(n in JobOutputs(run[i].job) && m in JobOutputs(run[i].job))
  {
    RunKeepsInv(run, steps, i);
  }
}
