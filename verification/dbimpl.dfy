/** The store's object, one method for each region run under the mutex. */
module DbImpl {
  import opened Common
  import opened DbFormat
  import opened Store
  import opened CompactionWork
  import opened Engine
  import opened EngineInvariant
  import opened EngineProof

  /** What MakeRoomForWrite decides in one turn of its loop. */
  datatype Room = Proceed | Delay | Await | Switch | Fail

  /** The entries of one memtable or of one version's tables, searched for a key. */
  datatype Found = Missing | Erased | Holds(value: Bytes)

  ghost predicate Sees(entries: set<Entry>, key: Bytes, at: nat) {
    exists e :: e in entries && Visible(e, key, at)
  }

  function EntriesOrNone(m: Option<set<Entry>>): set<Entry> {
    if m.Some? then m.value else {}
  }

  /** What EngineTheorems proves of the layers that a read consults. */
  ghost predicate LayersHold(memtable: set<Entry>, older: set<Entry>, inTables: set<Entry>) {
    && OneEntryPerNumber(memtable + older + inTables)
    && AllNewer(memtable, older) && AllNewer(memtable + older, inTables)
  }

  function TotalSize(writers: seq<Writer>): nat {
    if writers == [] then 0
    else
      var last := writers[|writers| - 1];
      TotalSize(writers[..|writers| - 1]) + if last.batch.Some? then ByteSize(last.batch.value) else 0
  }

  lemma TotalSizeMore(writers: seq<Writer>, i: nat)
    requires i < |writers|
    ensures TotalSize(writers[..i + 1]) ==
            TotalSize(writers[..i]) + if writers[i].batch.Some? then ByteSize(writers[i].batch.value) else 0
  {
    assert writers[..i + 1][..i] == writers[..i];
  }

  lemma {:induction false} JoinersFit(writers: seq<Writer>, i: nat, maxSize: nat, sync: bool)
    requires i <= |writers| && TotalSize(writers[..i]) <= maxSize
    ensures TotalSize(writers[..i + Joining(writers, i, TotalSize(writers[..i]), maxSize, sync)]) <= maxSize
    decreases |writers| - i
  {
    if i < |writers| && !(writers[i].sync && !sync) {
      TotalSizeMore(writers, i);
      if TotalSize(writers[..i + 1]) <= maxSize {
        JoinersFit(writers, i + 1, maxSize, sync);
      }
    }
  }

  /** A group either is a single batch or stays within the limit set by its first one, and no writer that wants a
      sync joins a leader that does not. */
  lemma GroupWithinLimit(writers: seq<Writer>)
    requires CanLead(writers)
    ensures TotalSize(writers[..GroupSize(writers)]) <= MaxGroupSize(writers[0].batch.value)
            || GroupSize(writers) == 1
            || forall i | 1 <= i < GroupSize(writers) :: writers[i].batch.None?
    ensures forall i | 0 <= i < GroupSize(writers) :: writers[i].sync ==> writers[0].sync
  {
    var first := writers[0].batch.value;
    TotalSizeMore(writers, 0);
    assert TotalSize(writers[..0]) == 0;
    if ByteSize(first) <= MaxGroupSize(first) {
      JoinersFit(writers, 1, MaxGroupSize(first), writers[0].sync);
    } else {
      OversizedStaysAlone(writers, 1, ByteSize(first), MaxGroupSize(first), writers[0].sync);
    }
  }

  /** Sizes of batches: a header of twelve bytes, and for an operation with short strings a byte for each of tag and lengths
      besides the strings. */
  lemma ByteSizeIs(b: Batch, op: Op)
    requires |op.key| < 128 && |op.value| < 128
    ensures ByteSize([]) == 12
    ensures ByteSize(b + [op]) == ByteSize(b) + 2 + |op.key| + if op.ty.Value? then 1 + |op.value| else 0
  {
    assert (b + [op])[..|b|] == b;
  }

  /** Size limit of a group, by the size of its first batch: small writes are not held up by large ones. */
  function Limit(size: nat): nat {
    if size <= 128 * 1024 then size + 128 * 1024 else 1024 * 1024
  }

  lemma {:induction false} JoinsWhoMay(writers: seq<Writer>, i: nat, maxSize: nat, sync: bool)
    requires i <= |writers|
    ensures
      var n := i + Joining(writers, i, TotalSize(writers[..i]), maxSize, sync);
      || n == |writers| || (writers[n].sync && !sync)
      || (writers[n].batch.Some? && TotalSize(writers[..n + 1]) > maxSize)
    decreases |writers| - i
  {
    if i < |writers| && !(writers[i].sync && !sync) {
      TotalSizeMore(writers, i);
      if writers[i].batch.None? || TotalSize(writers[..i + 1]) <= maxSize {
        JoinsWhoMay(writers, i + 1, maxSize, sync);
      }
    }
  }

  /** A group is as large as it may be: it ends with the queue, before a writer that wants a sync although the leader does
      not, or before a batch that does not fit. */
  lemma GroupIsMaximal(writers: seq<Writer>)
    requires CanLead(writers)
    ensures
      var n := GroupSize(writers);
      || n == |writers| || (writers[n].sync && !writers[0].sync)
      || (writers[n].batch.Some? && TotalSize(writers[..n + 1]) > Limit(ByteSize(writers[0].batch.value)))
    ensures GroupSize(writers) == 1 || TotalSize(writers[..GroupSize(writers)]) <= Limit(ByteSize(writers[0].batch.value))
            || forall i | 1 <= i < GroupSize(writers) :: writers[i].batch.None?
  {
    TotalSizeMore(writers, 0);
    assert TotalSize(writers[..0]) == 0;
    JoinsWhoMay(writers, 1, MaxGroupSize(writers[0].batch.value), writers[0].sync);
    GroupWithinLimit(writers);
  }

  /** Garbage collection leaves exactly the tables that are in the current version, pinned by a reader or being written, and
      the logs from the version's log number on; after a background error it leaves everything. */
  lemma ExactlyGarbageGoes(s: State)
    ensures
      var s' := Engine.DeleteObsoleteFiles(s);
      && (forall n :: n in s'.tables <==>
            n in s.tables && (s.bgError || n in s.pending || n in s.version.tables || exists r :: r in s.readers && n in r.tables))
      && (forall n | n in s'.tables :: s'.tables[n] == s.tables[n])
      && (forall n :: n in s'.logs <==> n in s.logs && (s.bgError || s.version.logNumber <= n))
      && (forall n | n in s'.logs :: s'.logs[n] == s.logs[n])
  {
  }

  lemma {:induction false} OversizedStaysAlone(writers: seq<Writer>, i: nat, size: nat, maxSize: nat, sync: bool)
    requires i <= |writers| && maxSize < size
    ensures forall k | i <= k < i + Joining(writers, i, size, maxSize, sync) :: writers[k].batch.None?
    decreases |writers| - i
  {
    if i < |writers| && !(writers[i].sync && !sync) && writers[i].batch.None? {
      OversizedStaysAlone(writers, i + 1, size, maxSize, sync);
    }
  }

  /** What the version set keeps in memory. */
  datatype VersionSet = VersionSet(
    lastSequence: nat, nextFile: nat, manifestFile: nat, current: Version, needsCompaction: bool, l0Full: bool)

  /** What the directory holds, besides the files that are never deleted. */
  datatype Directory = Directory(manifest: Manifest, tables: Tables, logs: Logs, descriptors: set<nat>, temps: set<nat>)

  datatype FileName = TableFile(number: nat) | LogFile(number: nat) | DescriptorFile(number: nat) | TempFile(number: nat)

  function NamesIn(d: Directory): set<FileName> {
    (set n | n in d.tables :: TableFile(n)) + (set n | n in d.logs :: LogFile(n))
    + (set n | n in d.descriptors :: DescriptorFile(n)) + (set n | n in d.temps :: TempFile(n))
  }

  function WithoutFile(d: Directory, name: FileName): Directory {
    match name
    case TableFile(n) => d.(tables := d.tables - {n})
    case LogFile(n) => d.(logs := d.logs - {n})
    case DescriptorFile(n) => d.(descriptors := d.descriptors - {n})
    case TempFile(n) => d.(temps := d.temps - {n})
  }

  /** A directory of which some files were gone through. */
  ghost predicate Cleaned(was: Directory, d: Directory, left: set<FileName>, live: set<nat>, oldest: nat, manifest: nat) {
    && d.manifest == was.manifest
    && (forall n :: n in d.tables <==> n in was.tables && (TableFile(n) in left || n in live))
    && (forall n | n in d.tables :: d.tables[n] == was.tables[n])
    && (forall n :: n in d.logs <==> n in was.logs && (LogFile(n) in left || oldest <= n))
    && (forall n | n in d.logs :: d.logs[n] == was.logs[n])
    && (forall n :: n in d.descriptors <==> n in was.descriptors && (DescriptorFile(n) in left || manifest <= n))
    && (forall n :: n in d.temps <==> n in was.temps && (TempFile(n) in left || n in live))
  }

  predicate Keeps(name: FileName, live: set<nat>, oldest: nat, manifest: nat) {
    match name
    case LogFile(n) => n >= oldest
    case DescriptorFile(n) => n >= manifest
    case TableFile(n) => n in live
    case TempFile(n) => n in live
  }

  lemma CleanedMore(
      was: Directory, d: Directory, left: set<FileName>, live: set<nat>, oldest: nat, manifest: nat, name: FileName)
    requires Cleaned(was, d, left, live, oldest, manifest) && name in left
    ensures Cleaned(was, if Keeps(name, live, oldest, manifest) then d else WithoutFile(d, name), left - {name}, live,
                    oldest, manifest)
  {
  }

  /** How far the background thread is. */
  datatype Background = Background(flush: Option<Flush>, job: Option<Job>, commit: Option<Commit>)

  datatype Users = Users(snapshots: seq<nat>, readers: multiset<Reader>)

  /** What a background call finds to do. */
  datatype Work = Nothing | FlushMemtable | PickCompaction

  class DBImpl {
    var open: bool
    var shuttingDown: bool
    var writers: seq<Writer>
    var group: Option<Group>
    var waiting: bool
    var switched: bool
    var mem: set<Entry>
    var imm: Option<set<Entry>>
    var logfile: nat
    var versions: VersionSet
    var directory: Directory
    var pending: set<nat>
    var scheduled: bool
    var bgError: bool
    var background: Background
    var users: Users
    ghost var h: History

    ghost function Abs(): State
      reads this
    {
      State(open, writers, group, waiting, switched, versions.lastSequence, versions.nextFile, logfile, mem, imm,
            versions.current, directory.manifest, directory.tables, directory.logs, pending, scheduled, bgError,
            shuttingDown, versions.needsCompaction, versions.l0Full, background.flush, background.job, background.commit,
            users.snapshots, users.readers, h)
    }

    // ----- scheduling -----

    method MaybeScheduleCompaction()
      modifies this`scheduled
      ensures Abs() == Engine.MaybeScheduleCompaction(old(Abs()))
      ensures scheduled <==> old(scheduled) || (!shuttingDown && !bgError && (imm.Some? || versions.needsCompaction))
    {
      if scheduled {
        // Already scheduled
      } else if shuttingDown {
        // The database is being deleted
      } else if bgError {
        // Already got an error
      } else if imm.None? && !versions.needsCompaction {
        // No work to be done
      } else {
        scheduled := true;
      }
    }

    method RecordBackgroundError()
      modifies this`bgError, this`waiting
      ensures Abs() == Engine.RecordBackgroundError(old(Abs()))
    {
      if !bgError {
        bgError := true;
        waiting := false;
      }
    }

    /** What BackgroundCall turns to: a memtable to flush comes before any compaction. */
    method BackgroundCall() returns (work: Work)
      requires open && scheduled && !Abs().BackgroundRunning()
      ensures work.Nothing? ==> JobEnabled(Abs(), BackgroundIdle)
      ensures work.FlushMemtable? <==> FlushEnabled(Abs(), StartFlush)
      ensures work.PickCompaction? <==> !shuttingDown && !bgError && imm.None?
    {
      if shuttingDown {
        work := Nothing;
      } else if bgError {
        work := Nothing;
      } else if imm.Some? {
        work := FlushMemtable;
      } else {
        work := PickCompaction;
      }
    }

    method EndBackgroundCall()
      modifies this`scheduled, this`waiting
      ensures Abs() == FinishBackgroundCall(old(Abs()))
      ensures !waiting && (scheduled <==> !shuttingDown && !bgError && (imm.Some? || versions.needsCompaction))
    {
      scheduled := false;
      MaybeScheduleCompaction();
      waiting := false;
    }

    // ----- garbage collection -----

    /** Goes through the directory file by file. */
    static method Clean(was: Directory, live: set<nat>, oldest: nat, manifest: nat) returns (d: Directory)
      ensures d == Directory(was.manifest, KeptTables(was.tables, live), KeptLogs(was.logs, oldest),
                             (set n | n in was.descriptors && manifest <= n), was.temps * live)
    {
      d := was;
      var names := NamesIn(was);
      while names != {}
        invariant Cleaned(was, d, names, live, oldest, manifest)
        decreases names
      {
        var name :| name in names;
        var keep := Keeps(name, live, oldest, manifest);
        CleanedMore(was, d, names, live, oldest, manifest, name);
        names := names - {name};
        if !keep {
          d := WithoutFile(d, name);
        }
      }
      assert d.tables == KeptTables(was.tables, live) && d.logs == KeptLogs(was.logs, oldest);
      assert d.temps == was.temps * live && d.descriptors == (set n | n in was.descriptors && manifest <= n);
    }

    method DeleteObsoleteFiles()
      modifies this`directory
      ensures Abs() == Engine.DeleteObsoleteFiles(old(Abs()))
      ensures !bgError ==>
                && directory.descriptors == (set n | n in old(directory).descriptors && versions.manifestFile <= n)
                && directory.temps == old(directory).temps * (pending + versions.current.tables + PinnedTables(users.readers))
      ensures bgError ==> directory == old(directory)
    {
      if bgError {
        // It is unknown which version the manifest names.
        return;
      }
      var live := pending + versions.current.tables + PinnedTables(users.readers);
      directory := Clean(directory, live, versions.current.logNumber, versions.manifestFile);
    }

    // ----- writing -----

    method JoinQueue(w: Writer)
      requires !shuttingDown
      modifies this`writers, this`h
      ensures Abs() == ApplyWriter(old(Abs()), Enqueue(w))
    {
      writers := writers + [w];
      h := h.(arrived := h.arrived + [w]);
    }

    method NewLog()
      modifies this`versions, this`directory, this`logfile
      ensures Abs() == old(Abs()).(nextFile := old(versions.nextFile) + 1, logfile := old(versions.nextFile),
                                   logs := old(directory.logs)[old(versions.nextFile) := {}])
    {
      var number := versions.nextFile;
      versions := versions.(nextFile := number + 1);
      directory := directory.(logs := directory.logs[number := {}]);
      logfile := number;
    }

    method NewMemtable()
      modifies this`imm, this`mem, this`switched
      ensures Abs() == old(Abs()).(imm := Some(old(mem)), mem := {}, switched := true)
    {
      imm := Some(mem);
      mem := {};
      switched := true;
    }

    /** A new log and an empty memtable; the full one waits to be flushed. */
    method SwitchMemtable()
      modifies this`versions, this`directory, this`logfile, this`imm, this`mem, this`switched, this`scheduled
      ensures Abs() == Switched(old(Abs()))
    {
      NewLog();
      NewMemtable();
      MaybeScheduleCompaction();
    }

    /** One turn of MakeRoomForWrite's loop, up to where it sleeps, waits or leaves. A fresh memtable is not full. */
    method MakeRoomForWrite(force: bool, allowDelay: bool, slowdown: bool, full: bool, created: bool) returns (room: Room)
      requires FrontRuns(Abs()) && (switched ==> !force && !full)
      modifies this`waiting, this`versions, this`directory, this`logfile, this`imm, this`mem, this`switched, this`scheduled
      ensures room == (if bgError then Fail
                       else if allowDelay && slowdown then Delay
                       else if !force && !full then Proceed
                       else if old(imm).Some? || old(versions).l0Full then Await
                       else if created then Switch else Fail)
      ensures room.Await? ==> WriterEnabled(old(Abs()), Wait) && Abs() == ApplyWriter(old(Abs()), Wait)
      ensures room.Switch? ==> WriterEnabled(old(Abs()), WriterStep.SwitchMemtable) && Abs() == Switched(old(Abs()))
      ensures room.Proceed? || room.Delay? ==> Abs() == old(Abs())
      ensures room.Fail? ==> Abs() == old(Abs()) && WriterEnabled(Abs(), RejectFront)
    {
      if bgError {
        room := Fail;
      } else if allowDelay && slowdown {
        room := Delay;
      } else if !force && !full {
        room := Proceed;
      } else if imm.Some? || versions.l0Full {
        waiting := true;
        room := Await;
      } else if created {
        SwitchMemtable();
        room := Switch;
      } else {
        // The file number is taken back.
        room := Fail;
      }
    }

    /** The batches of as many waiting writers as may join the front one, in queue order. */
    method BuildBatchGroup() returns (size: nat, result: Batch)
      requires CanLead(writers)
      ensures size == GroupSize(writers) && result == Merged(writers[..size])
    {
      var queue := writers;
      var first := queue[0].batch.value;
      var total: nat, maxSize: nat := ByteSize(first), MAX_GROUP;
      if total <= SMALL_WRITE {
        maxSize := total + SMALL_WRITE;
      }
      result, size := first, 1;
      MergedMore(queue, 0);
      ghost var joined := GroupSize(queue);
      while size < |queue|
        invariant 1 <= size <= |queue| && result == Merged(queue[..size])
        invariant joined == size + Joining(queue, size, total, maxSize, queue[0].sync)
      {
        var w := queue[size];
        if w.sync && !queue[0].sync {
          break;
        }
        MergedMore(queue, size);
        if w.batch.Some? {
          total := total + ByteSize(w.batch.value);
          if total > maxSize {
            break;
          }
          result := result + w.batch.value;
        }
        size := size + 1;
      }
    }

    method StartGroup()
      requires FrontRuns(Abs()) && !bgError && CanLead(writers)
      modifies this`group
      ensures Abs() == GroupStarted(old(Abs()))
    {
      var size, result := BuildBatchGroup();
      group := Some(Group(size, Record(versions.lastSequence + 1, result), writers[0].sync, Logging, false, 0));
    }

    method InsertEntry()
      requires WriterEnabled(Abs(), WriterStep.InsertEntry)
      modifies this`mem, this`group
      ensures Abs() == EntryInserted(old(Abs()))
    {
      var g := group.value;
      mem := mem + {EntryAt(g.record, g.inserted)};
      group := Some(g.(inserted := g.inserted + 1));
    }

    /** Writers leave the queue one after the other, up to the last of the group. */
    method PopWriters(n: nat)
      requires n <= |writers|
      modifies this`writers
      ensures writers == old(writers)[n..]
    {
      var popped := 0;
      while popped < n
        invariant popped <= n && writers == old(writers)[popped..]
      {
        writers := writers[1..];
        popped := popped + 1;
      }
    }

    method ReportToWriters(n: nat, record: Option<Record>, ok: bool, synced: bool)
      requires n <= |writers|
      modifies this`writers, this`switched, this`h
      ensures Abs() == Engine.PopWriters(old(Abs()), n, record, ok, synced)
    {
      h := h.(outcomes := h.outcomes + [Outcome(writers[..n], record, ok, synced)]);
      PopWriters(n);
      switched := false;
    }

    /** Back under the mutex. A failed sync leaves the log in doubt, so no later write may succeed. */
    method CloseGroup()
      requires group.Some?
      modifies this`versions, this`group, this`bgError, this`waiting, this`h
      ensures Abs() == GroupClosed(old(Abs()))
    {
      var g := group.value;
      if g.phase == Failed(true) {
        RecordBackgroundError();
      }
      versions := versions.(lastSequence := versions.lastSequence + |g.record.ops|);
      group := None;
      h := h.(committed := if g.phase.Failed? then h.committed else h.committed + {g.record},
              unacked := if g.phase.Failed? then h.unacked + {g.record} else h.unacked);
    }

    method FinishGroup()
      requires WriterEnabled(Abs(), WriterStep.FinishGroup)
      modifies this`writers, this`versions, this`group, this`bgError, this`waiting, this`switched, this`h
      ensures Abs() == GroupFinished(old(Abs()))
    {
      var g := group.value;
      CloseGroup();
      ReportToWriters(g.size, Some(g.record), g.phase.Inserting?, g.synced);
    }

    // ----- reading -----

    /** What MemTable::Get and Version::Get promise: the newest entry of the key that the snapshot sees decides. */
    static method Search(entries: set<Entry>, key: Bytes, snapshot: nat) returns (found: Found)
      requires OneEntryPerNumber(entries)
      ensures found.Missing? <==> !Sees(entries, key, snapshot)
      ensures forall v :: found == Holds(v) <==> Reads(entries, key, snapshot, v)
    {
      var rest := entries;
      var newest: Option<Entry> := None;
      while rest != {}
        invariant rest <= entries
        invariant newest.None? ==> forall e | e in entries - rest :: !Visible(e, key, snapshot)
        invariant newest.Some? ==>
                    && newest.value in entries - rest && newest.value.key == key && newest.value.sequence <= snapshot
                    && forall e | e in entries - rest && Visible(e, key, snapshot) :: e.sequence <= newest.value.sequence
        decreases rest
      {
        var e :| e in rest;
        rest := rest - {e};
        if e.key == key && e.sequence <= snapshot && (newest.None? || newest.value.sequence < e.sequence) {
          newest := Some(e);
        }
      }
      if newest.None? {
        found := Missing;
      } else {
        assert IsNewest(entries, key, snapshot, newest.value);
        found := if newest.value.ty.Value? then Holds(newest.value.value) else Erased;
      }
    }

    /** The memtable first, then the immutable memtable, then the tables: the first to know the key decides. */
    static method SearchLayers(memtable: set<Entry>, older: Option<set<Entry>>, inTables: set<Entry>, key: Bytes, at: nat)
      returns (value: Option<Bytes>, consulted: bool)
      requires LayersHold(memtable, EntriesOrNone(older), inTables)
      ensures forall v :: value == Some(v) <==> Reads(memtable + (EntriesOrNone(older) + inTables), key, at, v)
      ensures consulted <==> !Sees(memtable, key, at) && !Sees(EntriesOrNone(older), key, at)
    {
      LayersDecide(memtable, EntriesOrNone(older), inTables, key, at);
      var found := Search(memtable, key, at);
      if found.Missing? && older.Some? {
        found := Search(older.value, key, at);
      }
      consulted := found.Missing?;
      if consulted {
        found := Search(inTables, key, at);
      }
      value := if found.Holds? then Some(found.value) else None;
    }

    /** The mutex is not held during the search; now is what the memtable held by reference has become by then. */
    method Get(key: Bytes, snapshot: Option<nat>, now: set<Entry>) returns (value: Option<Bytes>, consulted: bool)
      requires LayersHold(now, Abs().ImmEntries(), TableEntries(directory.tables, versions.current.tables))
      requires mem <= now && forall e | e in now - mem :: e.sequence > versions.lastSequence
      requires snapshot.Some? ==> snapshot.value <= versions.lastSequence
      ensures
        var at := if snapshot.Some? then snapshot.value else versions.lastSequence;
        && (forall v :: value == Some(v) <==> Reads(Abs().Readable(), key, at, v))
        && (consulted <==> !Sees(now, key, at) && !Sees(Abs().ImmEntries(), key, at))
    {
      var at := if snapshot.Some? then snapshot.value else versions.lastSequence;
      var inTables := TableEntries(directory.tables, versions.current.tables);
      value, consulted := SearchLayers(now, imm, inTables, key, at);
      ghost var others := EntriesOrNone(imm) + inTables;
      assert Abs().Readable() == mem + others && now + others == mem + others + (now - mem);
      UnseenEntries(mem + others, now - mem, at);
    }

    /** Back under the mutex: a file that was asked in vain too often is to be compacted. */
    method FinishGet(consulted: bool, updated: bool)
      modifies this`versions, this`scheduled
      ensures Abs() == if consulted && updated then ApplyReader(old(Abs()), SampleRead) else old(Abs())
    {
      if consulted && updated {
        versions := versions.(needsCompaction := true);
        MaybeScheduleCompaction();
      }
    }
  }

  /** The first layer that sees the key answers for all of them. */
  lemma LayersDecide(mem: set<Entry>, imm: set<Entry>, inTables: set<Entry>, key: Bytes, at: nat)
    requires AllNewer(mem, imm) && AllNewer(mem + imm, inTables)
    ensures forall v :: Reads(mem + (imm + inTables), key, at, v) <==>
                        if Sees(mem, key, at) then Reads(mem, key, at, v)
                        else if Sees(imm, key, at) then Reads(imm, key, at, v)
                        else Reads(inTables, key, at, v)
  {
    forall v
      ensures Reads(mem + (imm + inTables), key, at, v) <==>
              if Sees(mem, key, at) then Reads(mem, key, at, v)
              else if Sees(imm, key, at) then Reads(imm, key, at, v)
              else Reads(inTables, key, at, v)
    {
      ReadsLayered(mem, imm + inTables, key, at, v);
      ReadsLayered(imm, inTables, key, at, v);
    }
  }

  lemma MergedMore(writers: seq<Writer>, i: nat)
    requires i < |writers|
    ensures Merged(writers[..i + 1]) == Merged(writers[..i]) + if writers[i].batch.Some? then writers[i].batch.value else []
  {
    assert writers[..i + 1][..i] == writers[..i];
  }
}
