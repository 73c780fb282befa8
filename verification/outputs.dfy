/** The compaction loop itself: one pass over the merged input that drops entries and cuts output files. */
module CompactionOutputs {
  import opened Common
  import opened DbFormat
  import opened Store
  import opened CompactionWork

  datatype Status = OK | IOError

  /** One output table: its recorded bounds, and what was written to the file. */
  datatype Output = Output(smallest: Option<ParsedInternalKey>, largest: Option<ParsedInternalKey>, entries: seq<Entry>)
  {
    function Add(e: Entry): Output {
      Output(if entries == [] then Some(KeyOf(e)) else smallest, Some(KeyOf(e)), entries + [e])
    }

    ghost predicate BoundsHold() {
      && entries != []
      && smallest == Some(KeyOf(entries[0]))
      && largest == Some(KeyOf(entries[|entries| - 1]))
    }
  }

  function Concat(outputs: seq<Output>): seq<Entry> {
    if outputs == [] then [] else Concat(outputs[..|outputs| - 1]) + outputs[|outputs| - 1].entries
  }

  lemma ConcatSnoc(outputs: seq<Output>, o: Output)
    ensures Concat(outputs + [o]) == Concat(outputs) + o.entries
  {
    assert (outputs + [o])[..|outputs|] == outputs;
  }

  /** A file is closed as soon as it reaches the size limit. */
  ghost predicate NoLargerThanNeeded(entries: seq<Entry>, fileSize: seq<Entry> -> nat, maxSize: nat) {
    forall p | 0 < p < |entries| :: fileSize(entries[..p]) < maxSize
  }

  ghost predicate Good(o: Output, fileSize: seq<Entry> -> nat, maxSize: nat) {
    o.BoundsHold() && NoLargerThanNeeded(o.entries, fileSize, maxSize)
  }

  ghost predicate AllGood(outputs: seq<Output>, fileSize: seq<Entry> -> nat, maxSize: nat) {
    forall i | 0 <= i < |outputs| :: Good(outputs[i], fileSize, maxSize)
  }

  lemma AddKeepsGood(o: Output, e: Entry, fileSize: seq<Entry> -> nat, maxSize: nat)
    requires o.entries == [] || (Good(o, fileSize, maxSize) && fileSize(o.entries) < maxSize)
    ensures Good(o.Add(e), fileSize, maxSize)
  {
    var entries := o.Add(e).entries;
    forall p | 0 < p < |entries| ensures fileSize(entries[..p]) < maxSize {
      assert entries[..p] == o.entries[..p];
      assert o.entries[..|o.entries|] == o.entries;
    }
  }

  function AddToLast(outputs: seq<Output>, e: Entry): (r: seq<Output>)
    requires outputs != []
    ensures |r| == |outputs|
  {
    outputs[|outputs| - 1 := outputs[|outputs| - 1].Add(e)]
  }

  lemma ConcatAddToLast(outputs: seq<Output>, e: Entry)
    requires outputs != []
    ensures Concat(AddToLast(outputs, e)) == Concat(outputs) + [e]
  {
    var last := |outputs| - 1;
    assert AddToLast(outputs, e) == outputs[..last] + [outputs[last].Add(e)];
    ConcatSnoc(outputs[..last], outputs[last].Add(e));
  }

  /** These entries fill whole files, from the first on. */
  ghost predicate CutAt(closed: seq<Output>, kept: seq<Entry>) {
    exists m | 0 <= m <= |closed| :: Concat(closed[..m]) == kept
  }

  /** Every position where the loop was told to stop falls between two files. */
  ghost predicate AllCuts(
      closed: seq<Output>, input: seq<Entry>, smallestSnapshot: nat, isBase: Bytes -> bool, shouldStop: nat -> bool, n: nat)
    requires n <= |input|
  {
    forall i | 0 <= i < n && shouldStop(i) :: CutAt(closed, Kept(input, smallestSnapshot, isBase, i))
  }

  lemma CutSurvives(before: seq<Output>, after: seq<Output>, kept: seq<Entry>)
    requires CutAt(before, kept) && before <= after
    ensures CutAt(after, kept)
  {
    var m :| 0 <= m <= |before| && Concat(before[..m]) == kept;
    assert after[..m] == before[..m];
  }

  lemma AllCutsGrow(
      before: seq<Output>, after: seq<Output>, input: seq<Entry>, smallestSnapshot: nat, isBase: Bytes -> bool,
      shouldStop: nat -> bool, n: nat)
    requires n <= |input| && before <= after
    requires AllCuts(before, input, smallestSnapshot, isBase, shouldStop, n)
    ensures AllCuts(after, input, smallestSnapshot, isBase, shouldStop, n)
  {
    forall i | 0 <= i < n && shouldStop(i) ensures CutAt(after, Kept(input, smallestSnapshot, isBase, i)) {
      CutSurvives(before, after, Kept(input, smallestSnapshot, isBase, i));
    }
  }

  lemma AllCutsStep(
      before: seq<Output>, closed: seq<Output>, all: seq<Output>, input: seq<Entry>, smallestSnapshot: nat,
      isBase: Bytes -> bool, shouldStop: nat -> bool, n: nat)
    requires n < |input| && before <= closed
    requires AllCuts(before, input, smallestSnapshot, isBase, shouldStop, n)
    requires Concat(all) == Kept(input, smallestSnapshot, isBase, n)
    requires shouldStop(n) ==> closed == all
    ensures AllCuts(closed, input, smallestSnapshot, isBase, shouldStop, n + 1)
  {
    AllCutsGrow(before, closed, input, smallestSnapshot, isBase, shouldStop, n);
    assert all[..|all|] == all;
  }

  /** Output a reached the size limit, or the loop was told to stop right after it. */
  ghost predicate HasReason(
      outputs: seq<Output>, a: nat, fileSize: seq<Entry> -> nat, maxSize: nat, input: seq<Entry>, smallestSnapshot: nat,
      isBase: Bytes -> bool, shouldStop: nat -> bool, n: nat)
    requires a < |outputs| && n <= |input|
  {
    || fileSize(outputs[a].entries) >= maxSize
    || exists i: nat :: i < n && shouldStop(i) && Concat(outputs[..a + 1]) == Kept(input, smallestSnapshot, isBase, i)
  }

  /** No output among the first m was closed without a reason. */
  ghost predicate HaveReasons(
      outputs: seq<Output>, m: int, fileSize: seq<Entry> -> nat, maxSize: nat, input: seq<Entry>, smallestSnapshot: nat,
      isBase: Bytes -> bool, shouldStop: nat -> bool, n: nat)
    requires m <= |outputs| && n <= |input|
  {
    forall a: nat | a < m :: HasReason(outputs, a, fileSize, maxSize, input, smallestSnapshot, isBase, shouldStop, n)
  }

  lemma ReasonsStay(
      before: seq<Output>, after: seq<Output>, m: nat, fileSize: seq<Entry> -> nat, maxSize: nat, input: seq<Entry>,
      smallestSnapshot: nat, isBase: Bytes -> bool, shouldStop: nat -> bool, n: nat, n': nat)
    requires m <= |before| && m <= |after| && before[..m] == after[..m] && n <= n' <= |input|
    requires HaveReasons(before, m, fileSize, maxSize, input, smallestSnapshot, isBase, shouldStop, n)
    ensures HaveReasons(after, m, fileSize, maxSize, input, smallestSnapshot, isBase, shouldStop, n')
  {
    forall a: nat | a < m
      ensures HasReason(after, a, fileSize, maxSize, input, smallestSnapshot, isBase, shouldStop, n')
    {
      assert before[..m][..a + 1] == before[..a + 1] && after[..m][..a + 1] == after[..a + 1];
      assert before[a] == before[..m][a] == after[..m][a] == after[a];
      assert HasReason(before, a, fileSize, maxSize, input, smallestSnapshot, isBase, shouldStop, n);
    }
  }

  /** One more output is closed. */
  lemma ReasonAdded(
      outputs: seq<Output>, m: nat, fileSize: seq<Entry> -> nat, maxSize: nat, input: seq<Entry>,
      smallestSnapshot: nat, isBase: Bytes -> bool, shouldStop: nat -> bool, n: nat)
    requires |outputs| == m + 1 && n <= |input|
    requires HaveReasons(outputs, m, fileSize, maxSize, input, smallestSnapshot, isBase, shouldStop, n)
    requires fileSize(outputs[m].entries) >= maxSize
             || exists i: nat :: i < n && shouldStop(i) && Concat(outputs) == Kept(input, smallestSnapshot, isBase, i)
    ensures HaveReasons(outputs, m + 1, fileSize, maxSize, input, smallestSnapshot, isBase, shouldStop, n)
  {
    assert outputs[..m + 1] == outputs;
  }

  /** Each output ends strictly before the next begins. */
  ghost predicate InOrder(cmp: Comparator, outputs: seq<Output>) {
    forall a, b | 0 <= a < b < |outputs| ::
      outputs[a].largest.Some? && outputs[b].smallest.Some? && Precedes(cmp, outputs[a].largest.value, outputs[b].smallest.value)
  }

  class CompactionState {
    const cmp: Comparator
    const smallestSnapshot: nat
    const fileSize: seq<Entry> -> nat     // size of the table holding these entries
    const maxOutputFileSize: nat
    const ioSucceeds: nat -> bool         // outcome of the n-th file operation

    var ioCalls: nat
    var outputs: seq<Output>
    var building: bool                    // builder != nullptr: the last output is open

    /** The outputs that will not be written to again. */
    function Closed(): seq<Output>
      reads this
    {
      if building && outputs != [] then outputs[..|outputs| - 1] else outputs
    }

    ghost predicate Valid()
      reads this
    {
      && (building ==> outputs != [])
      && AllGood(outputs, fileSize, maxOutputFileSize)
      && (building ==> fileSize(outputs[|outputs| - 1].entries) < maxOutputFileSize)
    }

    constructor (
        cmp: Comparator, smallestSnapshot: nat, fileSize: seq<Entry> -> nat, maxOutputFileSize: nat,
        ioSucceeds: nat -> bool)
      ensures Valid() && outputs == [] && !building
      ensures this.cmp == cmp && this.smallestSnapshot == smallestSnapshot
      ensures this.fileSize == fileSize && this.maxOutputFileSize == maxOutputFileSize && this.ioSucceeds == ioSucceeds
    {
      this.cmp, this.smallestSnapshot := cmp, smallestSnapshot;
      this.fileSize, this.maxOutputFileSize, this.ioSucceeds := fileSize, maxOutputFileSize, ioSucceeds;
      ioCalls, outputs, building := 0, [], false;
    }

    method FileOperation() returns (s: Status)
      modifies this`ioCalls
      ensures (s.OK? <==> ioSucceeds(old(ioCalls))) && ioCalls == old(ioCalls) + 1
    {
      s := if ioSucceeds(ioCalls) then OK else IOError;
      ioCalls := ioCalls + 1;
    }

    /** Appends a fresh output with cleared bounds; it stays there even when the file cannot be created. */
    method OpenCompactionOutputFile() returns (s: Status)
      requires !building
      modifies this
      ensures outputs == old(outputs) + [Output(None, None, [])]
      ensures building <==> s.OK?
      ensures (forall c :: ioSucceeds(c)) ==> s.OK?
    {
      outputs := outputs + [Output(None, None, [])];
      s := FileOperation();
      building := s.OK?;
    }

    /** Finishes, syncs and closes the file, and opens it as a table if it holds anything: it succeeds exactly when
        the input has no error and each of these does. */
    method FinishCompactionOutputFile(inputStatus: Status) returns (s: Status)
      requires building && outputs != []
      modifies this`building, this`ioCalls
      ensures !building
      ensures
        var calls := if outputs[|outputs| - 1].entries == [] then 3 else 4;
        s.OK? <==> inputStatus.OK? && forall c | old(ioCalls) <= c < old(ioCalls) + calls :: ioSucceeds(c)
    {
      s := inputStatus;
      if s.OK? {
        s := FileOperation();
      }
      building := false;
      if s.OK? {
        s := FileOperation();
      }
      if s.OK? {
        s := FileOperation();
      }
      if s.OK? && outputs[|outputs| - 1].entries != [] {
        s := FileOperation();
      }
    }

    /** The output after the first m is closed, and has reached the size limit. */
    ghost predicate IsFull(m: nat)
      reads this
    {
      Closed() == outputs && |outputs| == m + 1 && fileSize(outputs[m].entries) >= maxOutputFileSize
    }

    /** Adds one entry to the open output, opening one if necessary, and closes it when big enough. */
    method AddEntry(e: Entry, inputStatus: Status) returns (s: Status)
      requires Valid()
      modifies this
      ensures s.OK? ==> Valid() && Concat(outputs) == Concat(old(outputs)) + [e]
      ensures s.OK? ==> old(Closed()) <= Closed()
      ensures s.OK? ==> Closed() == old(Closed()) || IsFull(|old(Closed())|)
      ensures (forall c :: ioSucceeds(c)) && inputStatus.OK? ==> s.OK?
    {
      if !building {
        s := OpenCompactionOutputFile();
        if !s.OK? {
          return;
        }
      }
      assert Concat(outputs) == Concat(old(outputs)) by {
        ConcatSnoc(old(outputs), Output(None, None, []));
      }
      AddKeepsGood(outputs[|outputs| - 1], e, fileSize, maxOutputFileSize);
      ConcatAddToLast(outputs, e);
      outputs := AddToLast(outputs, e);
      s := OK;
      if fileSize(outputs[|outputs| - 1].entries) >= maxOutputFileSize {
        s := FinishCompactionOutputFile(inputStatus);
      }
    }

    /** What the loop decides about entry i, given the user key and sequence number it remembers. */
    method DecideDrop(
        compaction: Compaction, input: seq<Entry>, i: nat, currentUserKey: Bytes, hasCurrentUserKey: bool, lastSequence: nat)
      returns (drop: bool, currentUserKey': Bytes, lastSequence': nat)
      requires compaction.Valid() && compaction.cmp == cmp && Sorted(cmp, input) && i < |input|
      requires hasCurrentUserKey == (i > 0)
      requires i > 0 ==> currentUserKey == input[i - 1].key && lastSequence == input[i - 1].sequence
      requires compaction.lastKey.Some? ==> i > 0 && cmp(compaction.lastKey.value, input[i - 1].key) <= 0
      modifies compaction`lastKey, compaction.levelPtrs
      ensures compaction.Valid()
      ensures compaction.lastKey.Some? ==> cmp(compaction.lastKey.value, input[i].key) <= 0
      ensures drop == Dropped(input, smallestSnapshot, compaction.BaseTest(), i)
      ensures currentUserKey' == input[i].key && lastSequence' == input[i].sequence
    {
      var ikey := input[i];
      currentUserKey', lastSequence' := currentUserKey, lastSequence;
      if i > 0 {
        assert Before(cmp, input[i - 1], input[i]);
        assert compaction.lastKey.Some? ==> Chain(cmp, compaction.lastKey.value, input[i - 1].key, input[i].key);
      }
      if !hasCurrentUserKey || cmp(ikey.key, currentUserKey) != 0 {
        currentUserKey' := ikey.key;
        lastSequence' := MAX_SEQUENCE_NUMBER;
      }
      drop := false;
      if lastSequence' <= smallestSnapshot {
        drop := true;
      } else if ikey.ty.Deletion? && ikey.sequence <= smallestSnapshot {
        drop := compaction.IsBaseLevelForKey(ikey.key);
      }
      lastSequence' := ikey.sequence;
    }

    /** What holds before entry i: the outputs hold what is kept of the entries so far, cut where told. */
    ghost predicate Progress(compaction: Compaction, input: seq<Entry>, shouldStop: nat -> bool, i: nat)
      requires i <= |input|
      reads this, compaction, compaction.levelPtrs
    {
      && Valid() && compaction.Valid() && compaction.cmp == cmp
      && (compaction.lastKey.Some? ==> i > 0 && cmp(compaction.lastKey.value, input[i - 1].key) <= 0)
      && Concat(outputs) == Kept(input, smallestSnapshot, compaction.BaseTest(), i)
      && AllCuts(Closed(), input, smallestSnapshot, compaction.BaseTest(), shouldStop, i)
      && ClosedForReasons(compaction, input, shouldStop, i)
    }

    ghost predicate ClosedForReasons(compaction: Compaction, input: seq<Entry>, shouldStop: nat -> bool, i: nat)
      requires i <= |input|
      reads this
    {
      HaveReasons(
        outputs, |Closed()|, fileSize, maxOutputFileSize, input, smallestSnapshot, compaction.BaseTest(), shouldStop, i)
    }

    lemma StoppedForReasons(
        before: seq<Output>, compaction: Compaction, input: seq<Entry>, shouldStop: nat -> bool, i: nat)
      requires i < |input| && |before| <= |outputs|
      requires Concat(outputs) == Kept(input, smallestSnapshot, compaction.BaseTest(), i)
      requires HaveReasons(
                 outputs, |before|, fileSize, maxOutputFileSize, input, smallestSnapshot, compaction.BaseTest(), shouldStop, i)
      requires Closed() == before || (shouldStop(i) && Closed() == outputs && |outputs| == |before| + 1)
      ensures ClosedForReasons(compaction, input, shouldStop, i + 1)
    {
      ReasonsStay(outputs, outputs, |before|, fileSize, maxOutputFileSize, input, smallestSnapshot, compaction.BaseTest(),
                  shouldStop, i, i + 1);
      if Closed() != before {
        ReasonAdded(outputs, |before|, fileSize, maxOutputFileSize, input, smallestSnapshot, compaction.BaseTest(),
                    shouldStop, i + 1);
      }
    }

    lemma FilledForReasons(
        before: seq<Output>, all: seq<Output>, compaction: Compaction, input: seq<Entry>, shouldStop: nat -> bool, n: nat)
      requires n <= |input| && before <= all && before <= outputs
      requires HaveReasons(
                 all, |before|, fileSize, maxOutputFileSize, input, smallestSnapshot, compaction.BaseTest(), shouldStop, n)
      requires Closed() == before || IsFull(|before|)
      ensures ClosedForReasons(compaction, input, shouldStop, n)
    {
      ReasonsStay(all, outputs, |before|, fileSize, maxOutputFileSize, input, smallestSnapshot, compaction.BaseTest(),
                  shouldStop, n, n);
      if Closed() != before {
        ReasonAdded(outputs, |before|, fileSize, maxOutputFileSize, input, smallestSnapshot, compaction.BaseTest(),
                    shouldStop, n);
      }
    }

    /** The rest of an iteration: the entry is dropped, or added to the outputs. */
    method TakeEntry(
        compaction: Compaction, input: seq<Entry>, shouldStop: nat -> bool, i: nat,
        currentUserKey: Bytes, hasCurrentUserKey: bool, lastSequence: nat)
      returns (status: Status, currentUserKey': Bytes, lastSequence': nat)
      requires Sorted(cmp, input) && i < |input| && Valid() && compaction.Valid() && compaction.cmp == cmp
      requires compaction.lastKey.Some? ==> i > 0 && cmp(compaction.lastKey.value, input[i - 1].key) <= 0
      requires Concat(outputs) == Kept(input, smallestSnapshot, compaction.BaseTest(), i)
      requires AllCuts(Closed(), input, smallestSnapshot, compaction.BaseTest(), shouldStop, i + 1)
      requires ClosedForReasons(compaction, input, shouldStop, i + 1)
      requires hasCurrentUserKey == (i > 0)
      requires i > 0 ==> currentUserKey == input[i - 1].key && lastSequence == input[i - 1].sequence
      modifies this, compaction`lastKey, compaction.levelPtrs
      ensures currentUserKey' == input[i].key && lastSequence' == input[i].sequence
      ensures status.OK? ==> Progress(compaction, input, shouldStop, i + 1)
      ensures (forall c :: ioSucceeds(c)) ==> status.OK?
    {
      ghost var before, all := Closed(), outputs;
      status := OK;
      var drop;
      drop, currentUserKey', lastSequence' :=
        DecideDrop(compaction, input, i, currentUserKey, hasCurrentUserKey, lastSequence);
      if !drop {
        status := AddEntry(input[i], OK);
        if !status.OK? {
          return;
        }
      }
      EntryTaken(before, all, compaction, input, shouldStop, i);
    }

    lemma EntryTaken(
        before: seq<Output>, all: seq<Output>, compaction: Compaction, input: seq<Entry>, shouldStop: nat -> bool, i: nat)
      requires Valid() && compaction.Valid() && compaction.cmp == cmp && i < |input|
      requires compaction.lastKey.Some? ==> cmp(compaction.lastKey.value, input[i].key) <= 0
      requires Concat(outputs) == Kept(input, smallestSnapshot, compaction.BaseTest(), i + 1)
      requires AllCuts(before, input, smallestSnapshot, compaction.BaseTest(), shouldStop, i + 1)
      requires before <= all && before <= outputs && before <= Closed() && (Closed() == before || IsFull(|before|))
      requires HaveReasons(all, |before|, fileSize, maxOutputFileSize, input, smallestSnapshot, compaction.BaseTest(),
                           shouldStop, i + 1)
      ensures Progress(compaction, input, shouldStop, i + 1)
    {
      FilledForReasons(before, all, compaction, input, shouldStop, i + 1);
      AllCutsGrow(before, Closed(), input, smallestSnapshot, compaction.BaseTest(), shouldStop, i + 1);
    }

    /** One iteration of the loop. */
    method ProcessEntry(
        compaction: Compaction, input: seq<Entry>, shouldStop: nat -> bool, i: nat,
        currentUserKey: Bytes, hasCurrentUserKey: bool, lastSequence: nat)
      returns (status: Status, currentUserKey': Bytes, lastSequence': nat)
      requires Sorted(cmp, input) && i < |input| && Progress(compaction, input, shouldStop, i)
      requires hasCurrentUserKey == (i > 0)
      requires i > 0 ==> currentUserKey == input[i - 1].key && lastSequence == input[i - 1].sequence
      modifies this, compaction`lastKey, compaction.levelPtrs
      ensures currentUserKey' == input[i].key && lastSequence' == input[i].sequence
      ensures status.OK? ==> Progress(compaction, input, shouldStop, i + 1)
      ensures (forall c :: ioSucceeds(c)) ==> status.OK?
    {
      currentUserKey', lastSequence' := input[i].key, input[i].sequence;
      ghost var before := Closed();
      status := StopBefore(shouldStop(i));
      if !status.OK? {
        return;
      }
      StoppedForReasons(before, compaction, input, shouldStop, i);
      AllCutsStep(before, Closed(), outputs, input, smallestSnapshot, compaction.BaseTest(), shouldStop, i);
      status, currentUserKey', lastSequence' :=
        TakeEntry(compaction, input, shouldStop, i, currentUserKey, hasCurrentUserKey, lastSequence);
    }

    /** One pass over the input. readable entries come out of the input iterator before it ends, with an
        error when they are not all; shouldStop(i) is the answer of ShouldStopBefore for entry i;
        shuttingDown(i) is what the loop reads before entry i. */
    method DoCompactionWork(
        compaction: Compaction, input: seq<Entry>, readable: nat, shouldStop: nat -> bool, shuttingDown: nat -> bool)
      returns (status: Status)
      requires Valid() && outputs == [] && !building
      requires compaction.Valid() && compaction.lastKey == None && compaction.cmp == cmp
      requires Sorted(cmp, input) && readable <= |input|
      modifies this, compaction`lastKey, compaction.levelPtrs
      ensures status.OK? ==> Valid() && !building && readable == |input|
      ensures status.OK? ==> Concat(outputs) == Kept(input, smallestSnapshot, compaction.BaseTest(), |input|)
      ensures status.OK? && smallestSnapshot < MAX_SEQUENCE_NUMBER ==>
                forall e :: e in Concat(outputs) <==> IsNeeded(input, smallestSnapshot, compaction.BaseTest(), e)
      ensures status.OK? ==> AllCuts(outputs, input, smallestSnapshot, compaction.BaseTest(), shouldStop, |input|)
      ensures status.OK? ==> HaveReasons(outputs, |outputs| - 1, fileSize, maxOutputFileSize, input, smallestSnapshot, compaction.BaseTest(), shouldStop, |input|)
      ensures status.OK? && smallestSnapshot < MAX_SEQUENCE_NUMBER && RepeatsBelow(input, smallestSnapshot) ==> InOrder(cmp, outputs)
      ensures readable == |input| && (forall i :: !shuttingDown(i)) && (forall c :: ioSucceeds(c)) ==> status.OK?
    {
      var i;
      status, i := PassOver(compaction, input, readable, shouldStop, shuttingDown);
      ghost var closed := Closed();
      status := Complete(status, shuttingDown(i), if readable == |input| then OK else IOError);
      if status.OK? {
        AllCutsGrow(closed, outputs, input, smallestSnapshot, compaction.BaseTest(), shouldStop, i);
        if smallestSnapshot < MAX_SEQUENCE_NUMBER {
          KeptIsNeeded(cmp, input, smallestSnapshot, compaction.BaseTest());
          if RepeatsBelow(input, smallestSnapshot) {
            KeptInOrder(cmp, input, smallestSnapshot, compaction.BaseTest(), outputs, fileSize, maxOutputFileSize);
          }
        }
      }
    }

    /** The loop. It ends at the end of what can be read, or at a shutdown. */
    method PassOver(
        compaction: Compaction, input: seq<Entry>, readable: nat, shouldStop: nat -> bool, shuttingDown: nat -> bool)
      returns (status: Status, i: nat)
      requires Valid() && outputs == [] && !building
      requires compaction.Valid() && compaction.lastKey == None && compaction.cmp == cmp
      requires Sorted(cmp, input) && readable <= |input|
      modifies this, compaction`lastKey, compaction.levelPtrs
      ensures i <= readable
      ensures status.OK? ==> Progress(compaction, input, shouldStop, i) && (i == readable || shuttingDown(i))
      ensures (forall c :: ioSucceeds(c)) ==> status.OK?
    {
      status := OK;
      var currentUserKey: Bytes := [];
      var lastSequenceForKey := MAX_SEQUENCE_NUMBER;
      i := 0;
      while i < readable && !shuttingDown(i)
        invariant i <= readable && status.OK?
        invariant i > 0 ==> currentUserKey == input[i - 1].key && lastSequenceForKey == input[i - 1].sequence
        invariant Progress(compaction, input, shouldStop, i)
      {
        status, currentUserKey, lastSequenceForKey :=
          ProcessEntry(compaction, input, shouldStop, i, currentUserKey, i > 0, lastSequenceForKey);
        if !status.OK? {
          break;
        }
        i := i + 1;
      }
    }

    /** Closes the open output, if any, when told to stop before the next key. */
    method StopBefore(stop: bool) returns (s: Status)
      requires Valid()
      modifies this`building, this`ioCalls
      ensures Valid() && old(Closed()) <= Closed()
      ensures s.OK? && stop ==> Closed() == outputs
      ensures Closed() == old(Closed()) || (stop && Closed() == outputs && |outputs| == |old(Closed())| + 1)
      ensures (forall c :: ioSucceeds(c)) ==> s.OK?
    {
      s := OK;
      if stop && building {
        s := FinishCompactionOutputFile(OK);
      }
    }

    method Complete(soFar: Status, shutdown: bool, inputStatus: Status) returns (status: Status)
      requires soFar.OK? ==> Valid()
      modifies this`building, this`ioCalls
      ensures status.OK? ==> soFar.OK? && !shutdown && inputStatus.OK? && Valid() && !building
      ensures soFar.OK? && !shutdown && inputStatus.OK? && (forall c :: ioSucceeds(c)) ==> status.OK?
    {
      status := soFar;
      if status.OK? && shutdown {
        status := IOError;
      }
      if status.OK? && building {
        status := FinishCompactionOutputFile(inputStatus);
      }
      if status.OK? {
        status := inputStatus;
      }
    }
  }

  lemma {:induction false} ConcatPrefix(outputs: seq<Output>, a: nat)
    requires a < |outputs|
    ensures exists r :: Concat(outputs) == Concat(outputs[..a]) + outputs[a].entries + r
  {
    if a < |outputs| - 1 {
      var front := outputs[..|outputs| - 1];
      ConcatPrefix(front, a);
      assert front[..a] == outputs[..a];
      var r :| Concat(front) == Concat(front[..a]) + front[a].entries + r;
      assert Concat(outputs) == Concat(outputs[..a]) + outputs[a].entries + (r + outputs[|outputs| - 1].entries);
    } else {
      assert Concat(outputs) == Concat(outputs[..a]) + outputs[a].entries + [];
    }
  }

  /** Installed outputs cover disjoint ranges, in ascending internal-key order, unless the same entry ends one and starts
      the next. */
  lemma OutputsDisjoint(cmp: Comparator, outputs: seq<Output>, a: nat, b: nat)
    requires IsTotalOrder(cmp) && Sorted(cmp, Concat(outputs)) && a < b < |outputs|
    requires forall o | o in outputs :: o.BoundsHold()
    ensures outputs[a].largest.Some? && outputs[b].smallest.Some? && outputs[a].entries != [] && outputs[b].entries != []
    ensures Precedes(cmp, outputs[a].largest.value, outputs[b].smallest.value) <==>
            outputs[a].entries[|outputs[a].entries| - 1] != outputs[b].entries[0]
    ensures Distinct(Concat(outputs)) ==> Precedes(cmp, outputs[a].largest.value, outputs[b].smallest.value)
  {
    assert outputs[a] in outputs && outputs[b] in outputs;
    ConcatPrefix(outputs, b);
    ConcatPrefix(outputs[..b], a);
    assert outputs[..b][..a] == outputs[..a];
    var all := Concat(outputs);
    var last := |Concat(outputs[..a])| + |outputs[a].entries| - 1;
    var first := |Concat(outputs[..b])|;
    assert last < first;
    assert all[last] == outputs[a].entries[|outputs[a].entries| - 1];
    assert all[first] == outputs[b].entries[0];
    assert Before(cmp, all[last], all[first]);
    assert cmp(all[last].key, all[last].key) == 0;
  }

  lemma KeptInOrder(
      cmp: Comparator, input: seq<Entry>, smallestSnapshot: nat, isBase: Bytes -> bool, outputs: seq<Output>,
      fileSize: seq<Entry> -> nat, maxSize: nat)
    requires IsTotalOrder(cmp) && Sorted(cmp, input) && smallestSnapshot < MAX_SEQUENCE_NUMBER
    requires RepeatsBelow(input, smallestSnapshot)
    requires Concat(outputs) == Kept(input, smallestSnapshot, isBase, |input|) && AllGood(outputs, fileSize, maxSize)
    ensures InOrder(cmp, outputs)
  {
    KeptDistinct(cmp, input, smallestSnapshot, isBase, |input|);
    KeptSorted(cmp, input, smallestSnapshot, isBase, |input|);
    forall a, b | 0 <= a < b < |outputs|
      ensures outputs[a].largest.Some? && outputs[b].smallest.Some?
      ensures Precedes(cmp, outputs[a].largest.value, outputs[b].smallest.value)
    {
      OutputsDisjoint(cmp, outputs, a, b);
    }
  }

  /** An input that repeats an entry no snapshot has reached could be cut between the two copies. */
  lemma RepeatMayTouch(e: Entry, smallestSnapshot: nat, isBase: Bytes -> bool)
    requires smallestSnapshot < e.sequence < MAX_SEQUENCE_NUMBER
    ensures !RepeatsBelow([e, e], smallestSnapshot)
    ensures
      var o := Output(Some(KeyOf(e)), Some(KeyOf(e)), [e]);
      o.BoundsHold() && Concat([o, o]) == Kept([e, e], smallestSnapshot, isBase, 2) == [e, e]
  {
    var o := Output(Some(KeyOf(e)), Some(KeyOf(e)), [e]);
    ConcatSnoc([], o);
    ConcatSnoc([o], o);
    assert [] + [o] == [o] && [o] + [o] == [o, o];
    assert [e, e][0] == [e, e][1];
    assert Kept([e, e], smallestSnapshot, isBase, 1) == [e];
  }
}
