/** The compaction loop: which entries it drops, why readers cannot tell, and how it cuts its outputs. */
module CompactionWork {
  import opened Common
  import opened DbFormat
  import opened Store

  // ----- merged input -----

  ghost predicate Before(cmp: Comparator, a: Entry, b: Entry) {
    cmp(a.key, b.key) < 0 || (a.key == b.key && (a.sequence > b.sequence || a == b))
  }

  /** The merging iterator yields user keys in ascending order and, within one, newest first. An entry that
      two of the merged sources hold appears twice. */
  ghost predicate Sorted(cmp: Comparator, input: seq<Entry>) {
    forall i, j {:trigger Before(cmp, input[i], input[j])} | 0 <= i < j < |input| :: Before(cmp, input[i], input[j])
  }

  ghost function SetOf(s: seq<Entry>): set<Entry> {
    set e | e in s
  }

  // ----- the drop rules -----

  /** last_sequence_for_key as the loop holds it when it reaches entry i. */
  function LastSequenceForKey(input: seq<Entry>, i: nat): nat
    requires i < |input|
  {
    if i > 0 && input[i - 1].key == input[i].key then input[i - 1].sequence else MAX_SEQUENCE_NUMBER
  }

  predicate Dropped(input: seq<Entry>, smallestSnapshot: nat, isBase: Bytes -> bool, i: nat)
    requires i < |input|
  {
    || LastSequenceForKey(input, i) <= smallestSnapshot
    || (input[i].ty.Deletion? && input[i].sequence <= smallestSnapshot && isBase(input[i].key))
  }

  /** The entries the loop writes out among the first n. */
  function Kept(input: seq<Entry>, smallestSnapshot: nat, isBase: Bytes -> bool, n: nat): seq<Entry>
    requires n <= |input|
  {
    if n == 0 then []
    else
      var before := Kept(input, smallestSnapshot, isBase, n - 1);
      if Dropped(input, smallestSnapshot, isBase, n - 1) then before else before + [input[n - 1]]
  }

  /** No entry of the rest of the store is older than an input entry of a key declared to be at its base level. */
  ghost predicate BaseLevelHolds(input: set<Entry>, rest: set<Entry>, isBase: Bytes -> bool) {
    forall e, f | e in input && f in rest && e.key == f.key && isBase(e.key) :: e.sequence < f.sequence
  }

  lemma {:induction false} KeptMembers(input: seq<Entry>, smallestSnapshot: nat, isBase: Bytes -> bool, n: nat)
    requires n <= |input|
    ensures forall e :: e in Kept(input, smallestSnapshot, isBase, n) <==>
                        exists i :: 0 <= i < n && input[i] == e && !Dropped(input, smallestSnapshot, isBase, i)
  {
    if n > 0 {
      KeptMembers(input, smallestSnapshot, isBase, n - 1);
    }
  }

  lemma {:induction false} KeptSorted(
      cmp: Comparator, input: seq<Entry>, smallestSnapshot: nat, isBase: Bytes -> bool, n: nat)
    requires n <= |input| && Sorted(cmp, input)
    ensures Sorted(cmp, Kept(input, smallestSnapshot, isBase, n))
  {
    if n > 0 {
      KeptSorted(cmp, input, smallestSnapshot, isBase, n - 1);
      KeptMembers(input, smallestSnapshot, isBase, n - 1);
      var before := Kept(input, smallestSnapshot, isBase, n - 1);
      forall i | 0 <= i < |before| ensures Before(cmp, before[i], input[n - 1]) {
        assert before[i] in before;
      }
    }
  }

  ghost predicate Distinct(entries: seq<Entry>) {
    forall i, j | 0 <= i < j < |entries| :: entries[i] != entries[j]
  }

  /** An entry that the input repeats is visible to every live snapshot. */
  ghost predicate RepeatsBelow(input: seq<Entry>, smallestSnapshot: nat) {
    forall i, j | 0 <= i < j < |input| && input[i] == input[j] :: input[j].sequence <= smallestSnapshot
  }

  /** Entries of one user key are contiguous in the merged order. */
  lemma SameKeyContiguous(cmp: Comparator, input: seq<Entry>, j: nat, i: nat)
    requires IsTotalOrder(cmp) && Sorted(cmp, input)
    requires j < i < |input| && input[j].key == input[i].key
    ensures input[i - 1].key == input[i].key
  {
    if j < i - 1 {
      assert Before(cmp, input[j], input[i - 1]) && Before(cmp, input[i - 1], input[i]);
    }
  }

  ghost predicate Hidden(input: seq<Entry>, smallestSnapshot: nat, i: nat)
    requires i < |input|
  {
    exists j :: 0 <= j < i && input[j].key == input[i].key && input[j].sequence <= smallestSnapshot
  }

  /** What rule (A) decides by looking one entry back: the entry is hidden from every live snapshot by
      some newer entry of its key. */
  lemma RuleAMeansHidden(cmp: Comparator, input: seq<Entry>, smallestSnapshot: nat, i: nat)
    requires IsTotalOrder(cmp) && Sorted(cmp, input) && i < |input|
    requires smallestSnapshot < MAX_SEQUENCE_NUMBER
    ensures LastSequenceForKey(input, i) <= smallestSnapshot <==> Hidden(input, smallestSnapshot, i)
  {
    if j :| 0 <= j < i && input[j].key == input[i].key && input[j].sequence <= smallestSnapshot {
      SameKeyContiguous(cmp, input, j, i);
      if j < i - 1 {
        assert Before(cmp, input[j], input[i - 1]);
        assert cmp(input[j].key, input[i - 1].key) == 0;
      }
    }
  }

  /** Rule (A) drops every later copy of an entry that all live snapshots see. */
  lemma {:induction false} KeptDistinct(
      cmp: Comparator, input: seq<Entry>, smallestSnapshot: nat, isBase: Bytes -> bool, n: nat)
    requires IsTotalOrder(cmp) && Sorted(cmp, input) && n <= |input|
    requires smallestSnapshot < MAX_SEQUENCE_NUMBER && RepeatsBelow(input, smallestSnapshot)
    ensures Distinct(Kept(input, smallestSnapshot, isBase, n))
  {
    if n > 0 {
      KeptDistinct(cmp, input, smallestSnapshot, isBase, n - 1);
      KeptMembers(input, smallestSnapshot, isBase, n - 1);
      RuleAMeansHidden(cmp, input, smallestSnapshot, n - 1);
      var before := Kept(input, smallestSnapshot, isBase, n - 1);
      forall i | 0 <= i < |before| && !Dropped(input, smallestSnapshot, isBase, n - 1) ensures before[i] != input[n - 1] {
        assert before[i] in before;
      }
    }
  }

  lemma DroppedValueIsHidden(cmp: Comparator, input: seq<Entry>, smallestSnapshot: nat, isBase: Bytes -> bool, i: nat)
    requires IsTotalOrder(cmp) && Sorted(cmp, input) && i < |input|
    requires smallestSnapshot < MAX_SEQUENCE_NUMBER
    requires forall j | 0 <= j < i :: input[j] != input[i]
    ensures Dropped(input, smallestSnapshot, isBase, i) && input[i].ty.Value? ==>
              exists g :: g in SetOf(input) && Visible(g, input[i].key, smallestSnapshot) && input[i].sequence < g.sequence
  {
    RuleAMeansHidden(cmp, input, smallestSnapshot, i);
    if j :| 0 <= j < i && input[j].key == input[i].key && input[j].sequence <= smallestSnapshot {
      assert Before(cmp, input[j], input[i]) && cmp(input[j].key, input[i].key) == 0;
      assert input[j] in SetOf(input) && Visible(input[j], input[i].key, smallestSnapshot);
    }
  }

  /** The first input entry of the key that every live snapshot can see. */
  lemma FirstCovered(cmp: Comparator, input: seq<Entry>, smallestSnapshot: nat, isBase: Bytes -> bool, i: nat)
    returns (first: nat)
    requires IsTotalOrder(cmp) && Sorted(cmp, input) && i < |input|
    requires smallestSnapshot < MAX_SEQUENCE_NUMBER
    requires Dropped(input, smallestSnapshot, isBase, i)
    ensures first <= i && input[first].key == input[i].key
    ensures input[i].sequence <= input[first].sequence <= smallestSnapshot
    ensures !Hidden(input, smallestSnapshot, first)
  {
    first := i;
    RuleAMeansHidden(cmp, input, smallestSnapshot, i);
    while Hidden(input, smallestSnapshot, first)
      invariant first <= i && input[first].key == input[i].key
      invariant input[i].sequence <= input[first].sequence
      invariant Hidden(input, smallestSnapshot, first) || input[first].sequence <= smallestSnapshot
      decreases first
    {
      var j :| 0 <= j < first && input[j].key == input[first].key && input[j].sequence <= smallestSnapshot;
      assert Before(cmp, input[j], input[first]) && cmp(input[j].key, input[first].key) == 0;
      first := j;
    }
  }

  /** A dropped entry leaves behind either a kept entry that hides it from every live snapshot, or a key
      at its base level of which only newer entries are kept. */
  lemma WhatADropLeaves(
      cmp: Comparator, input: seq<Entry>, smallestSnapshot: nat, isBase: Bytes -> bool, i: nat, snapshot: nat)
    requires IsTotalOrder(cmp) && Sorted(cmp, input) && i < |input|
    requires smallestSnapshot < MAX_SEQUENCE_NUMBER && smallestSnapshot <= snapshot
    requires Dropped(input, smallestSnapshot, isBase, i)
    ensures
      var kept := SetOf(Kept(input, smallestSnapshot, isBase, |input|));
      || (exists g | g in kept :: Visible(g, input[i].key, snapshot) && input[i].sequence <= g.sequence)
      || (isBase(input[i].key) && forall g | g in kept && g.key == input[i].key :: input[i].sequence < g.sequence)
  {
    KeptMembers(input, smallestSnapshot, isBase, |input|);
    var kept := SetOf(Kept(input, smallestSnapshot, isBase, |input|));
    var first := FirstCovered(cmp, input, smallestSnapshot, isBase, i);
    RuleAMeansHidden(cmp, input, smallestSnapshot, first);
    if !Dropped(input, smallestSnapshot, isBase, first) {
      assert input[first] in kept && Visible(input[first], input[i].key, snapshot);
    } else {
      forall g | g in kept && g.key == input[i].key ensures input[i].sequence < g.sequence {
        var k :| 0 <= k < |input| && input[k] == g && !Dropped(input, smallestSnapshot, isBase, k);
        RuleAMeansHidden(cmp, input, smallestSnapshot, k);
        assert k < first;
        assert Before(cmp, input[k], input[first]) && cmp(input[k].key, input[first].key) == 0;
      }
    }
  }

  /** Compaction preserves meaning: together with any rest of the store that respects the base-level
      answers, the kept entries answer every read at a live snapshot as the whole input did. */
  lemma CompactionPreservesReads(
      cmp: Comparator, input: seq<Entry>, smallestSnapshot: nat, isBase: Bytes -> bool, rest: set<Entry>, snapshot: nat)
    requires IsTotalOrder(cmp) && Sorted(cmp, input)
    requires smallestSnapshot < MAX_SEQUENCE_NUMBER && smallestSnapshot <= snapshot
    requires BaseLevelHolds(SetOf(input), rest, isBase)
    ensures SameAt(rest + SetOf(input), rest + SetOf(Kept(input, smallestSnapshot, isBase, |input|)), snapshot)
  {
    var kept := Kept(input, smallestSnapshot, isBase, |input|);
    KeptMembers(input, smallestSnapshot, isBase, |input|);
    forall key, value
      ensures Reads(rest + SetOf(input), key, snapshot, value) <==> Reads(rest + SetOf(kept), key, snapshot, value)
    {
      if Reads(rest + SetOf(input), key, snapshot, value) {
        var e :| IsNewest(rest + SetOf(input), key, snapshot, e) && e.ty.Value? && e.value == value;
        NewestValueSurvives(cmp, input, smallestSnapshot, isBase, rest, key, snapshot, e);
      }
      if Reads(rest + SetOf(kept), key, snapshot, value) {
        var e :| IsNewest(rest + SetOf(kept), key, snapshot, e) && e.ty.Value? && e.value == value;
        NothingNewerWasDropped(cmp, input, smallestSnapshot, isBase, rest, key, snapshot, e);
      }
    }
  }

  lemma NewestValueSurvives(
      cmp: Comparator, input: seq<Entry>, smallestSnapshot: nat, isBase: Bytes -> bool, rest: set<Entry>,
      key: Bytes, snapshot: nat, e: Entry)
    requires IsTotalOrder(cmp) && Sorted(cmp, input)
    requires smallestSnapshot < MAX_SEQUENCE_NUMBER && smallestSnapshot <= snapshot
    requires IsNewest(rest + SetOf(input), key, snapshot, e) && e.ty.Value?
    ensures IsNewest(rest + SetOf(Kept(input, smallestSnapshot, isBase, |input|)), key, snapshot, e)
  {
    KeptMembers(input, smallestSnapshot, isBase, |input|);
    if e !in rest {
      var i := FirstIndexOf(input, e);
      DroppedValueIsHidden(cmp, input, smallestSnapshot, isBase, i);
    }
  }

  lemma NothingNewerWasDropped(
      cmp: Comparator, input: seq<Entry>, smallestSnapshot: nat, isBase: Bytes -> bool, rest: set<Entry>,
      key: Bytes, snapshot: nat, e: Entry)
    requires IsTotalOrder(cmp) && Sorted(cmp, input)
    requires smallestSnapshot < MAX_SEQUENCE_NUMBER && smallestSnapshot <= snapshot
    requires BaseLevelHolds(SetOf(input), rest, isBase)
    requires IsNewest(rest + SetOf(Kept(input, smallestSnapshot, isBase, |input|)), key, snapshot, e)
    ensures IsNewest(rest + SetOf(input), key, snapshot, e)
  {
    KeptMembers(input, smallestSnapshot, isBase, |input|);
    forall f | f in SetOf(input) && Visible(f, key, snapshot) ensures f.sequence <= e.sequence {
      var i :| 0 <= i < |input| && input[i] == f;
      if Dropped(input, smallestSnapshot, isBase, i) {
        WhatADropLeaves(cmp, input, smallestSnapshot, isBase, i, snapshot);
      }
    }
  }

  /** The bound on the smallest snapshot is needed: at the largest sequence number the sentinel itself
      passes for a seen entry, and the loop drops everything. */
  lemma {:induction false} SentinelSnapshotDropsAll(input: seq<Entry>, smallestSnapshot: nat, isBase: Bytes -> bool, n: nat)
    requires n <= |input| && forall e | e in input :: e.sequence <= MAX_SEQUENCE_NUMBER
    requires smallestSnapshot >= MAX_SEQUENCE_NUMBER
    ensures Kept(input, smallestSnapshot, isBase, n) == []
  {
    if n > 0 {
      SentinelSnapshotDropsAll(input, smallestSnapshot, isBase, n - 1);
      assert input[n - 1] in input;
      if n > 1 {
        assert input[n - 2] in input;
      }
    }
  }

  /** Entry i has no newer version, nor an earlier copy, that all live snapshots see. */
  ghost predicate FirstSeen(input: seq<Entry>, smallestSnapshot: nat, i: nat)
    requires i < |input|
  {
    forall j | 0 <= j < i && input[j].key == input[i].key :: input[j].sequence > smallestSnapshot
  }

  /** An entry some live snapshot may need: not hidden from all of them, and not a deletion that all of them see with
      nothing left to delete. */
  ghost predicate IsNeeded(input: seq<Entry>, smallestSnapshot: nat, isBase: Bytes -> bool, e: Entry) {
    && (exists i: nat :: i < |input| && input[i] == e && FirstSeen(input, smallestSnapshot, i))
    && !(e.ty.Deletion? && e.sequence <= smallestSnapshot && isBase(e.key))
  }

  /** The loop keeps what is needed, and drops everything else. */
  lemma KeptIsNeeded(cmp: Comparator, input: seq<Entry>, smallestSnapshot: nat, isBase: Bytes -> bool)
    requires IsTotalOrder(cmp) && Sorted(cmp, input) && smallestSnapshot < MAX_SEQUENCE_NUMBER
    ensures forall e :: e in Kept(input, smallestSnapshot, isBase, |input|) <==> IsNeeded(input, smallestSnapshot, isBase, e)
  {
    KeptMembers(input, smallestSnapshot, isBase, |input|);
    forall i: nat | i < |input|
      ensures LastSequenceForKey(input, i) > smallestSnapshot <==> FirstSeen(input, smallestSnapshot, i)
    {
      RuleAMeansHidden(cmp, input, smallestSnapshot, i);
    }
  }

  /** A deletion marker that every snapshot sees is gone once nothing below can hold its key. */
  lemma ObsoleteMarkerGoes(e: Entry, smallestSnapshot: nat, isBase: Bytes -> bool)
    requires e.ty.Deletion? && e.sequence <= smallestSnapshot && isBase(e.key)
    ensures Kept([e], smallestSnapshot, isBase, 1) == []
  {
  }

  // ----- base-level test -----

  datatype FileMetaData = FileMetaData(smallest: Bytes, largest: Bytes)

  /** Files of one level, by user key: a user key may end one file and start the next. */
  ghost predicate SortedLevel(cmp: Comparator, files: seq<FileMetaData>) {
    && (forall i | 0 <= i < |files| :: cmp(files[i].smallest, files[i].largest) <= 0)
    && (forall i, j | 0 <= i < j < |files| :: cmp(files[i].largest, files[j].smallest) <= 0)
  }

  predicate Covers(cmp: Comparator, file: FileMetaData, userKey: Bytes) {
    cmp(file.smallest, userKey) <= 0 && cmp(userKey, file.largest) <= 0
  }

  predicate CoveredIn(cmp: Comparator, files: seq<FileMetaData>, userKey: Bytes) {
    exists f | f in files :: Covers(cmp, f, userKey)
  }

  predicate AtBaseLevel(cmp: Comparator, deeper: seq<seq<FileMetaData>>, userKey: Bytes) {
    forall files | files in deeper :: !CoveredIn(cmp, files, userKey)
  }

  /** Spelled out: no file of any of these levels has a range that holds the key. */
  lemma AtBaseLevelMeans(cmp: Comparator, deeper: seq<seq<FileMetaData>>, userKey: Bytes)
    ensures AtBaseLevel(cmp, deeper, userKey) <==>
            !exists lvl, i :: 0 <= lvl < |deeper| && 0 <= i < |deeper[lvl]|
                              && cmp(deeper[lvl][i].smallest, userKey) <= 0 && cmp(userKey, deeper[lvl][i].largest) <= 0
  {
    if lvl, i :| 0 <= lvl < |deeper| && 0 <= i < |deeper[lvl]|
                 && cmp(deeper[lvl][i].smallest, userKey) <= 0 && cmp(userKey, deeper[lvl][i].largest) <= 0 {
      assert deeper[lvl][i] in deeper[lvl] && Covers(cmp, deeper[lvl][i], userKey);
      assert deeper[lvl] in deeper && CoveredIn(cmp, deeper[lvl], userKey);
    }
  }

  class Compaction {
    const cmp: Comparator
    const deeper: seq<seq<FileMetaData>>  // the input version's files at every level past level + 1
    const levelPtrs: array<nat>
    ghost var lastKey: Option<Bytes>

    ghost predicate Valid()
      reads this, levelPtrs
    {
      && IsTotalOrder(cmp)
      && (forall files | files in deeper :: SortedLevel(cmp, files))
      && levelPtrs.Length == |deeper|
      && forall lvl | 0 <= lvl < |deeper| :: PassedOver(lvl, levelPtrs[lvl])
    }

    function BaseTest(): Bytes -> bool {
      k => AtBaseLevel(cmp, deeper, k)
    }

    /** Every file of the level before index n ends below the last key asked about. */
    ghost predicate PassedOver(lvl: nat, n: nat)
      requires lvl < |deeper|
      reads this
    {
      && n <= |deeper[lvl]|
      && forall i | 0 <= i < n :: lastKey.Some? && cmp(deeper[lvl][i].largest, lastKey.value) < 0
    }

    constructor (cmp: Comparator, deeper: seq<seq<FileMetaData>>)
      requires IsTotalOrder(cmp) && forall files | files in deeper :: SortedLevel(cmp, files)
      ensures Valid() && fresh(levelPtrs) && this.cmp == cmp && this.deeper == deeper && lastKey == None
    {
      this.cmp, this.deeper := cmp, deeper;
      levelPtrs := new nat[|deeper|](_ => 0);
      lastKey := None;
    }

    /** The answer is about the key alone, although the search resumes where the previous one stopped;
        that is sound because the keys asked about never descend. */
    method IsBaseLevelForKey(userKey: Bytes) returns (isBase: bool)
      requires Valid()
      requires lastKey.Some? ==> cmp(lastKey.value, userKey) <= 0
      modifies this`lastKey, levelPtrs
      ensures Valid() && lastKey == Some(userKey)
      ensures isBase == AtBaseLevel(cmp, deeper, userKey)
    {
      forall lvl, i | 0 <= lvl < |deeper| && 0 <= i < levelPtrs[lvl]
        ensures i < |deeper[lvl]| && cmp(deeper[lvl][i].largest, userKey) < 0
      {
        assert PassedOver(lvl, levelPtrs[lvl]);
        assert Chain(cmp, deeper[lvl][i].largest, lastKey.value, userKey);
      }
      assert forall lvl | 0 <= lvl < |deeper| :: PassedOver(lvl, levelPtrs[lvl]);
      lastKey := Some(userKey);
      for lvl := 0 to |deeper|
        invariant Valid() && lastKey == Some(userKey)
        invariant forall l | 0 <= l < lvl :: !CoveredIn(cmp, deeper[l], userKey)
      {
        var covered := SearchLevel(lvl, userKey);
        if covered {
          return false;
        }
      }
      return true;
    }

    method SearchLevel(lvl: nat, userKey: Bytes) returns (covered: bool)
      requires Valid() && lvl < |deeper| && lastKey == Some(userKey)
      modifies levelPtrs
      ensures Valid()
      ensures covered == CoveredIn(cmp, deeper[lvl], userKey)
    {
      var files := deeper[lvl];
      assert SortedLevel(cmp, files);
      while levelPtrs[lvl] < |files|
        invariant PassedOver(lvl, levelPtrs[lvl])
        invariant forall l | 0 <= l < |deeper| && l != lvl :: levelPtrs[l] == old(levelPtrs[l])
        decreases |files| - levelPtrs[lvl]
      {
        var f := files[levelPtrs[lvl]];
        if cmp(userKey, f.largest) <= 0 {
          covered := cmp(userKey, f.smallest) >= 0;
          if covered {
            assert f in files && Covers(cmp, f, userKey);
          } else {
            NotCovered(cmp, files, levelPtrs[lvl], userKey);
          }
          return;
        }
        levelPtrs[lvl] := levelPtrs[lvl] + 1;
      }
      NotCovered(cmp, files, |files|, userKey);
      covered := false;
    }
  }

  lemma NotCovered(cmp: Comparator, files: seq<FileMetaData>, n: nat, userKey: Bytes)
    requires IsTotalOrder(cmp) && SortedLevel(cmp, files) && n <= |files|
    requires forall i | 0 <= i < n :: cmp(files[i].largest, userKey) < 0
    requires n < |files| ==> cmp(userKey, files[n].smallest) < 0
    ensures !CoveredIn(cmp, files, userKey)
  {
    forall i | 0 <= i < |files| ensures !Covers(cmp, files[i], userKey) {
      if i > n {
        assert Chain(cmp, userKey, files[n].smallest, files[n].largest);
        assert Chain(cmp, userKey, files[n].largest, files[i].smallest);
      }
    }
  }

  /** Entries of the deeper levels lie within their files' ranges, so a key found to be at its base level
      has none there; what other levels hold of it is newer. This is what the drop rule relies on. */
  lemma BaseLevelAnswersSuffice(
      cmp: Comparator, deeper: seq<seq<FileMetaData>>, isBase: Bytes -> bool, input: set<Entry>, above: set<Entry>,
      below: set<Entry>)
    requires forall k :: isBase(k) == AtBaseLevel(cmp, deeper, k)
    requires LevelsHold(cmp, deeper, input, above, below)
    ensures BaseLevelHolds(input, above + below, isBase)
  {
  }

  /** Where the rest of the store is: the levels above hold newer entries of the input's keys, and the entries of the
      levels below are within the ranges of their files. */
  ghost predicate LevelsHold(
      cmp: Comparator, deeper: seq<seq<FileMetaData>>, input: set<Entry>, above: set<Entry>, below: set<Entry>)
  {
    && (forall e, f | e in input && f in above && e.key == f.key :: e.sequence < f.sequence)
    && forall f | f in below :: exists files | files in deeper :: CoveredIn(cmp, files, f.key)
  }
}
