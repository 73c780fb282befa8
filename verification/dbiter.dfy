/** The user-facing iterator over one snapshot: a bidirectional cursor that folds the internal entries of
    each user key into at most one live pair. */
module DbIterator {
  import opened DbFormat
  import opened Store
  import opened CompactionWork

  // ----- what the iterator is a cursor over -----

  /** Entry i is the newest visible entry of its key, and holds a value. */
  ghost predicate Live(entries: seq<Entry>, snapshot: nat, i: int) {
    && 0 <= i < |entries|
    && entries[i].sequence <= snapshot && entries[i].ty.Value?
    && forall j | 0 <= j < i && entries[j].key == entries[i].key :: entries[j].sequence > snapshot
  }

  ghost predicate NoneLive(entries: seq<Entry>, snapshot: nat, from: int, to: int) {
    forall i | from <= i < to :: !Live(entries, snapshot, i)
  }

  ghost predicate AllUnseen(entries: seq<Entry>, snapshot: nat, from: int, to: int)
    requires 0 <= from && to <= |entries|
  {
    forall i | from <= i < to :: entries[i].sequence > snapshot
  }

  datatype Pair = Pair(key: Bytes, value: Bytes)

  /** The live pairs among the first n entries, in key order. */
  ghost function LiveUpTo(entries: seq<Entry>, snapshot: nat, n: nat): seq<Pair>
    requires n <= |entries|
  {
    if n == 0 then []
    else
      var before := LiveUpTo(entries, snapshot, n - 1);
      if Live(entries, snapshot, n - 1) then before + [Pair(entries[n - 1].key, entries[n - 1].value)] else before
  }

  ghost function LiveList(entries: seq<Entry>, snapshot: nat): seq<Pair> {
    LiveUpTo(entries, snapshot, |entries|)
  }

  lemma {:induction false} LiveUpToSkips(entries: seq<Entry>, snapshot: nat, a: nat, b: nat)
    requires a <= b <= |entries| && NoneLive(entries, snapshot, a, b)
    ensures LiveUpTo(entries, snapshot, b) == LiveUpTo(entries, snapshot, a)
  {
    if a < b {
      LiveUpToSkips(entries, snapshot, a, b - 1);
    }
  }

  lemma {:induction false} LiveUpToPrefix(entries: seq<Entry>, snapshot: nat, a: nat, b: nat)
    requires a <= b <= |entries|
    ensures LiveUpTo(entries, snapshot, a) <= LiveUpTo(entries, snapshot, b)
  {
    if a < b {
      LiveUpToPrefix(entries, snapshot, a, b - 1);
    }
  }

  lemma {:induction false} LivePairs(entries: seq<Entry>, snapshot: nat, n: nat, key: Bytes, value: Bytes)
    requires n <= |entries|
    ensures Pair(key, value) in LiveUpTo(entries, snapshot, n) <==>
            exists i :: 0 <= i < n && Live(entries, snapshot, i) && entries[i].key == key && entries[i].value == value
  {
    if n > 0 {
      LivePairs(entries, snapshot, n - 1, key, value);
    }
  }

  /** The list holds exactly what readers at the snapshot find. */
  lemma LiveListIsWhatReadersFind(
      cmp: Comparator, entries: seq<Entry>, snapshot: nat, key: Bytes, value: Bytes)
    requires IsTotalOrder(cmp) && Sorted(cmp, entries)
    ensures Pair(key, value) in LiveList(entries, snapshot) <==> Reads(SetOf(entries), key, snapshot, value)
  {
    LivePairs(entries, snapshot, |entries|, key, value);
    if i :| 0 <= i < |entries| && Live(entries, snapshot, i) && entries[i].key == key && entries[i].value == value {
      forall f | f in SetOf(entries) && Visible(f, key, snapshot) ensures f.sequence <= entries[i].sequence {
        var j :| 0 <= j < |entries| && entries[j] == f;
        assert j > i ==> Before(cmp, entries[i], entries[j]) && cmp(entries[i].key, entries[j].key) == 0;
      }
      assert IsNewest(SetOf(entries), key, snapshot, entries[i]);
    }
    if Reads(SetOf(entries), key, snapshot, value) {
      var e :| IsNewest(SetOf(entries), key, snapshot, e) && e.ty.Value? && e.value == value;
      var i := FirstIndexOf(entries, e);
      forall j | 0 <= j < i && entries[j].key == key ensures entries[j].sequence > snapshot {
        assert entries[j] in SetOf(entries) && entries[j] != e;
        assert Before(cmp, entries[j], entries[i]) && cmp(entries[j].key, entries[i].key) == 0;
      }
      assert Live(entries, snapshot, i);
    }
  }

  /** Keys of the list strictly ascend. */
  lemma {:induction false} LiveListAscends(cmp: Comparator, entries: seq<Entry>, snapshot: nat, n: nat)
    requires IsTotalOrder(cmp) && Sorted(cmp, entries) && n <= |entries|
    ensures forall p, q | 0 <= p < q < |LiveUpTo(entries, snapshot, n)| ::
              cmp(LiveUpTo(entries, snapshot, n)[p].key, LiveUpTo(entries, snapshot, n)[q].key) < 0
  {
    if n > 0 {
      LiveListAscends(cmp, entries, snapshot, n - 1);
      if Live(entries, snapshot, n - 1) {
        var before := LiveUpTo(entries, snapshot, n - 1);
        forall p | 0 <= p < |before| ensures cmp(before[p].key, entries[n - 1].key) < 0 {
          assert Pair(before[p].key, before[p].value) in before;
          LivePairs(entries, snapshot, n - 1, before[p].key, before[p].value);
          var i :| 0 <= i < n - 1 && Live(entries, snapshot, i) && entries[i].key == before[p].key;
          assert Before(cmp, entries[i], entries[n - 1]);
        }
      }
    }
  }

  /** A position in the list, or none. */
  datatype Cursor = At(p: nat) | Invalid

  function ListNext(list: seq<Pair>, c: Cursor): Cursor {
    if c.At? && c.p + 1 < |list| then At(c.p + 1) else Invalid
  }

  function ListPrev(list: seq<Pair>, c: Cursor): Cursor {
    if c.At? && c.p > 0 then At(c.p - 1) else Invalid
  }

  function ListFirst(list: seq<Pair>): Cursor {
    if list != [] then At(0) else Invalid
  }

  function ListLast(list: seq<Pair>): Cursor {
    if list != [] then At(|list| - 1) else Invalid
  }

  /** The cursor stands at the first pair whose key is at least the target. */
  ghost predicate IsListSeek(cmp: Comparator, list: seq<Pair>, target: Bytes, c: Cursor) {
    match c
    case At(p) => p < |list| && cmp(list[p].key, target) >= 0 && forall q | 0 <= q < p :: cmp(list[q].key, target) < 0
    case Invalid => forall q | 0 <= q < |list| :: cmp(list[q].key, target) < 0
  }

  /** A live entry's place in the list. */
  ghost function Rank(entries: seq<Entry>, snapshot: nat, i: nat): Cursor
    requires i <= |entries|
  {
    At(|LiveUpTo(entries, snapshot, i)|)
  }

  lemma RankIsPlace(entries: seq<Entry>, snapshot: nat, i: nat)
    requires Live(entries, snapshot, i)
    ensures Rank(entries, snapshot, i).p < |LiveList(entries, snapshot)|
    ensures LiveList(entries, snapshot)[Rank(entries, snapshot, i).p] == Pair(entries[i].key, entries[i].value)
  {
    LiveUpToPrefix(entries, snapshot, i + 1, |entries|);
  }

  /** The place of entry i, or none past the end. */
  ghost function Place(entries: seq<Entry>, snapshot: nat, i: int): Cursor
    requires i <= |entries|
  {
    if 0 <= i < |entries| then Rank(entries, snapshot, i) else Invalid
  }

  lemma FirstInList(entries: seq<Entry>, snapshot: nat, i: nat)
    requires i <= |entries| && NoneLive(entries, snapshot, 0, i)
    requires i < |entries| ==> Live(entries, snapshot, i)
    ensures Place(entries, snapshot, i) == ListFirst(LiveList(entries, snapshot))
  {
    LiveUpToSkips(entries, snapshot, 0, i);
    if i < |entries| {
      RankIsPlace(entries, snapshot, i);
    }
  }

  lemma NextInList(entries: seq<Entry>, snapshot: nat, cur: nat, i: nat)
    requires Live(entries, snapshot, cur)
    requires cur < i <= |entries| && NoneLive(entries, snapshot, cur + 1, i)
    requires i < |entries| ==> Live(entries, snapshot, i)
    ensures Place(entries, snapshot, i) == ListNext(LiveList(entries, snapshot), Rank(entries, snapshot, cur))
  {
    LiveUpToSkips(entries, snapshot, cur + 1, i);
    if i < |entries| {
      RankIsPlace(entries, snapshot, i);
    }
  }

  /** Between a live entry i (or none) and hi the list does not grow. */
  lemma PrevLength(entries: seq<Entry>, snapshot: nat, hi: nat, i: int)
    requires -1 <= i < hi <= |entries| && NoneLive(entries, snapshot, i + 1, hi)
    requires i >= 0 ==> Live(entries, snapshot, i)
    ensures |LiveUpTo(entries, snapshot, hi)| == if i < 0 then 0 else |LiveUpTo(entries, snapshot, i)| + 1
  {
    LiveUpToSkips(entries, snapshot, i + 1, hi);
  }

  lemma PrevInList(entries: seq<Entry>, snapshot: nat, cur: nat, i: int)
    requires Live(entries, snapshot, cur)
    requires -1 <= i < cur && NoneLive(entries, snapshot, i + 1, cur)
    requires i >= 0 ==> Live(entries, snapshot, i)
    ensures Place(entries, snapshot, i) == ListPrev(LiveList(entries, snapshot), Rank(entries, snapshot, cur))
  {
    PrevLength(entries, snapshot, cur, i);
  }

  lemma LastInList(entries: seq<Entry>, snapshot: nat, i: int)
    requires -1 <= i < |entries| && NoneLive(entries, snapshot, i + 1, |entries|)
    requires i >= 0 ==> Live(entries, snapshot, i)
    ensures Place(entries, snapshot, i) == ListLast(LiveList(entries, snapshot))
  {
    if entries == [] {
      assert LiveList(entries, snapshot) == [];
    } else {
      PrevLength(entries, snapshot, |entries|, i);
    }
  }

  // ----- writes that arrive while the iterator is open -----

  function Inserted(entries: seq<Entry>, at: nat, e: Entry): seq<Entry>
    requires at <= |entries|
  {
    entries[..at] + [e] + entries[at..]
  }

  lemma InsertKeepsLive(entries: seq<Entry>, snapshot: nat, at: nat, e: Entry, i: nat)
    requires at <= |entries| && e.sequence > snapshot && i < |entries|
    ensures Live(Inserted(entries, at, e), snapshot, if i < at then i else i + 1) <==> Live(entries, snapshot, i)
  {
    var after := Inserted(entries, at, e);
    var i' := if i < at then i else i + 1;
    assert after[i'] == entries[i];
    if Live(after, snapshot, i') {
      forall j | 0 <= j < i && entries[j].key == entries[i].key ensures entries[j].sequence > snapshot {
        assert after[if j < at then j else j + 1] == entries[j];
      }
    }
    if Live(entries, snapshot, i) {
      forall j | 0 <= j < i' && after[j].key == after[i'].key ensures after[j].sequence > snapshot {
        assert j != at ==> after[j] == entries[if j < at then j else j - 1];
      }
    }
  }

  /** An entry beyond the snapshot leaves the list, and every place in it, alone. */
  lemma {:induction false} InsertKeepsList(entries: seq<Entry>, snapshot: nat, at: nat, e: Entry, n: nat)
    requires at <= |entries| && e.sequence > snapshot && n <= |entries|
    ensures LiveUpTo(Inserted(entries, at, e), snapshot, if n < at then n else n + 1) == LiveUpTo(entries, snapshot, n)
  {
    var after := Inserted(entries, at, e);
    if n > 0 {
      InsertKeepsList(entries, snapshot, at, e, n - 1);
      InsertKeepsLive(entries, snapshot, at, e, n - 1);
      if n == at {
        assert after[at] == e && !Live(after, snapshot, at);
        assert LiveUpTo(after, snapshot, n) == LiveUpTo(entries, snapshot, n);
      }
    } else if at == 0 {
      assert after[at] == e && !Live(after, snapshot, at);
    }
  }

  // ----- the internal iterator -----

  /** The merging iterator: a position among the sorted entries, or none. */
  class InternalIterator {
    const cmp: Comparator
    var entries: seq<Entry>
    var pos: int

    ghost predicate Ok()
      reads this
    {
      IsTotalOrder(cmp) && Sorted(cmp, entries) && -1 <= pos < |entries|
    }

    predicate Valid()
      reads this
    {
      0 <= pos < |entries|
    }

    constructor (cmp: Comparator, entries: seq<Entry>)
      requires IsTotalOrder(cmp) && Sorted(cmp, entries)
      ensures Ok() && this.cmp == cmp && this.entries == entries
    {
      this.cmp, this.entries, pos := cmp, entries, -1;
    }

    method SeekToFirst()
      requires Ok()
      modifies this`pos
      ensures Ok() && pos == if entries == [] then -1 else 0
    {
      pos := if entries == [] then -1 else 0;
    }

    method SeekToLast()
      requires Ok()
      modifies this`pos
      ensures Ok() && pos == |entries| - 1
    {
      pos := |entries| - 1;
    }

    /** Stands at the first entry that does not sort before the target. */
    method Seek(target: ParsedInternalKey)
      requires Ok()
      modifies this`pos
      ensures Ok()
      ensures forall i | 0 <= i < if Valid() then pos else |entries| :: Precedes(cmp, KeyOf(entries[i]), target)
      ensures Valid() ==> !Precedes(cmp, KeyOf(entries[pos]), target)
    {
      pos := 0;
      while pos < |entries| && Precedes(cmp, KeyOf(entries[pos]), target)
        invariant 0 <= pos <= |entries|
        invariant forall i | 0 <= i < pos :: Precedes(cmp, KeyOf(entries[i]), target)
      {
        pos := pos + 1;
      }
      if pos == |entries| {
        pos := -1;
      }
    }

    /** A write lands in the memtable being iterated; the position stays at its entry. */
    method Insert(e: Entry, at: nat)
      requires Ok() && at <= |entries| && Sorted(cmp, Inserted(entries, at, e))
      modifies this
      ensures Ok() && entries == Inserted(old(entries), at, e)
      ensures pos == if at <= old(pos) then old(pos) + 1 else old(pos)
    {
      entries := Inserted(entries, at, e);
      pos := if at <= pos then pos + 1 else pos;
    }

    method Next()
      requires Ok() && Valid()
      modifies this`pos
      ensures Ok() && pos == if old(pos) + 1 < |entries| then old(pos) + 1 else -1
    {
      pos := if pos + 1 < |entries| then pos + 1 else -1;
    }

    method Prev()
      requires Ok() && Valid()
      modifies this`pos
      ensures Ok() && pos == old(pos) - 1
    {
      pos := pos - 1;
    }
  }

  // ----- the iterator -----

  datatype Direction = Forward | Reverse

  /** Visible entry j precedes entry i of the same key. */
  ghost predicate Shadows(entries: seq<Entry>, snapshot: nat, j: nat, i: nat)
    requires j < |entries| && i < |entries|
  {
    entries[j].sequence <= snapshot && entries[j].key == entries[i].key
  }

  /** What a forward scan may rely on when it stands at pos, looking for a live entry at lo or later, and
      has been told whether to skip keys up to skip. */
  ghost predicate ScanState(
      cmp: Comparator, entries: seq<Entry>, snapshot: nat, lo: nat, pos: nat, skipping: bool, skip: Bytes)
    requires pos <= |entries|
  {
    && (forall i | lo <= i < pos :: !Live(entries, snapshot, i))
    && (forall j, i {:trigger Shadows(entries, snapshot, j, i)} | 0 <= j < pos <= i < |entries| ::
          Shadows(entries, snapshot, j, i) ==> skipping && cmp(entries[i].key, skip) <= 0)
    && (skipping ==> forall i | pos <= i < |entries| && lo <= i && cmp(entries[i].key, skip) <= 0 :: !Live(entries, snapshot, i))
    && (forall i | pos <= i < lo && i < |entries| ::
          entries[i].sequence > snapshot || (entries[i].ty.Value? && skipping && cmp(entries[i].key, skip) <= 0))
  }

  lemma ScanPastUnseen(
      cmp: Comparator, entries: seq<Entry>, snapshot: nat, lo: nat, pos: nat, skipping: bool, skip: Bytes)
    requires pos < |entries| && ScanState(cmp, entries, snapshot, lo, pos, skipping, skip)
    requires entries[pos].sequence > snapshot
    ensures ScanState(cmp, entries, snapshot, lo, pos + 1, skipping, skip)
  {
  }

  lemma ScanPastHidden(
      cmp: Comparator, entries: seq<Entry>, snapshot: nat, lo: nat, pos: nat, skip: Bytes)
    requires pos < |entries| && ScanState(cmp, entries, snapshot, lo, pos, true, skip)
    requires cmp(entries[pos].key, skip) <= 0
    ensures ScanState(cmp, entries, snapshot, lo, pos + 1, true, skip)
  {
  }

  lemma ScanPastDeletion(
      cmp: Comparator, entries: seq<Entry>, snapshot: nat, lo: nat, pos: nat, skipping: bool, skip: Bytes)
    requires IsTotalOrder(cmp) && Sorted(cmp, entries)
    requires pos < |entries| && ScanState(cmp, entries, snapshot, lo, pos, skipping, skip)
    requires entries[pos].sequence <= snapshot && entries[pos].ty.Deletion?
    ensures ScanState(cmp, entries, snapshot, lo, pos + 1, true, entries[pos].key)
  {
    assert lo <= pos;
    forall i | pos < i < |entries| && cmp(entries[i].key, entries[pos].key) <= 0
      ensures entries[i].key == entries[pos].key
    {
      assert Before(cmp, entries[pos], entries[i]);
    }
    forall j, i | 0 <= j < pos + 1 <= i < |entries| && entries[j].key == entries[i].key
      ensures cmp(entries[i].key, entries[pos].key) <= 0
    {
      if j < pos {
        assert Before(cmp, entries[j], entries[pos]);
      }
    }
  }

  lemma ScanFinds(
      cmp: Comparator, entries: seq<Entry>, snapshot: nat, lo: nat, pos: nat, skipping: bool, skip: Bytes)
    requires pos < |entries| && ScanState(cmp, entries, snapshot, lo, pos, skipping, skip)
    requires entries[pos].sequence <= snapshot && entries[pos].ty.Value?
    requires !(skipping && cmp(entries[pos].key, skip) <= 0)
    ensures lo <= pos && Live(entries, snapshot, pos)
  {
    forall j | 0 <= j < pos && entries[j].key == entries[pos].key ensures entries[j].sequence > snapshot {
      assert !Shadows(entries, snapshot, j, pos);
    }
  }

  /** A forward scan that skips the key of a live entry, from just past invisible entries in front of it. */
  lemma ScanFromCurrent(cmp: Comparator, entries: seq<Entry>, snapshot: nat, pos: nat, cur: nat)
    requires IsTotalOrder(cmp) && Sorted(cmp, entries)
    requires Live(entries, snapshot, cur) && pos <= cur && AllUnseen(entries, snapshot, pos, cur)
    ensures ScanState(cmp, entries, snapshot, cur + 1, pos, true, entries[cur].key)
  {
    forall i | cur < i < |entries| && cmp(entries[i].key, entries[cur].key) <= 0
      ensures entries[i].key == entries[cur].key
    {
      assert Before(cmp, entries[cur], entries[i]);
    }
    forall j, i | 0 <= j < pos <= i < |entries| && entries[j].key == entries[i].key
      ensures cmp(entries[i].key, entries[cur].key) <= 0
    {
      if j < cur {
        assert Before(cmp, entries[j], entries[cur]);
      }
      if i < cur {
        assert Before(cmp, entries[i], entries[cur]);
      } else if i > cur {
        assert Before(cmp, entries[cur], entries[i]);
      }
    }
  }

  /** What a backward scan knows at pos, looking for the last live entry before hi: either none so far, or
      a value at c that only entries before c can still hide. */
  ghost predicate BackState(entries: seq<Entry>, snapshot: nat, hi: nat, pos: int, found: bool, c: nat) {
    && -1 <= pos < hi <= |entries|
    && if found then
         && pos < c < hi && entries[c].sequence <= snapshot && entries[c].ty.Value?
         && AllUnseen(entries, snapshot, pos + 1, c) && NoneLive(entries, snapshot, c + 1, hi)
       else NoneLive(entries, snapshot, pos + 1, hi)
  }

  lemma BackOverVisible(
      cmp: Comparator, entries: seq<Entry>, snapshot: nat, hi: nat, pos: nat, found: bool, c: nat)
    requires IsTotalOrder(cmp) && Sorted(cmp, entries)
    requires BackState(entries, snapshot, hi, pos, found, c)
    requires entries[pos].sequence <= snapshot
    requires found ==> cmp(entries[pos].key, entries[c].key) >= 0
    ensures BackState(entries, snapshot, hi, pos - 1, entries[pos].ty.Value?, pos)
  {
    if found {
      assert Before(cmp, entries[pos], entries[c]);
      assert !Live(entries, snapshot, c);
    }
  }

  lemma BackOverUnseen(entries: seq<Entry>, snapshot: nat, hi: nat, pos: nat, found: bool, c: nat)
    requires BackState(entries, snapshot, hi, pos, found, c)
    requires entries[pos].sequence > snapshot
    ensures BackState(entries, snapshot, hi, pos - 1, found, c)
  {
  }

  lemma BackFinds(cmp: Comparator, entries: seq<Entry>, snapshot: nat, hi: nat, pos: int, c: nat)
    requires IsTotalOrder(cmp) && Sorted(cmp, entries)
    requires BackState(entries, snapshot, hi, pos, true, c)
    requires pos >= 0 ==> cmp(entries[pos].key, entries[c].key) < 0
    ensures Live(entries, snapshot, c)
  {
    forall j | 0 <= j <= pos ensures entries[j].key != entries[c].key {
      if j < pos {
        assert Before(cmp, entries[j], entries[pos]);
        assert Chain(cmp, entries[j].key, entries[pos].key, entries[c].key);
      }
    }
  }

  class DBIter {
    const iter: InternalIterator
    const sequence: nat
    var direction: Direction
    var valid: bool
    var savedKey: Bytes
    var savedValue: Bytes
    ghost var cur: nat  // the live entry the iterator stands at

    ghost predicate Ok()
      reads this, iter
    {
      && iter.Ok()
      && (valid ==>
            && Live(iter.entries, sequence, cur)
            && match direction
               case Forward => iter.pos == cur
               case Reverse =>
                 && iter.pos < cur && AllUnseen(iter.entries, sequence, iter.pos + 1, cur)
                 && savedKey == iter.entries[cur].key && savedValue == iter.entries[cur].value)
    }

    ghost function Contents(): seq<Pair>
      reads this, iter
    {
      LiveList(iter.entries, sequence)
    }

    ghost function Position(): Cursor
      requires Ok()
      reads this, iter
    {
      if valid then Rank(iter.entries, sequence, cur) else Invalid
    }

    constructor (iter: InternalIterator, sequence: nat)
      requires iter.Ok()
      ensures Ok() && this.iter == iter && this.sequence == sequence && Position() == Invalid
    {
      this.iter, this.sequence := iter, sequence;
      direction, valid, savedKey, savedValue := Forward, false, [], [];
    }

    /** Key and value are those of the list at the cursor. */
    method KeyAndValue() returns (key: Bytes, value: Bytes)
      requires Ok() && valid
      ensures Position().At? && Position().p < |Contents()| && Contents()[Position().p] == Pair(key, value)
    {
      key := if direction.Forward? then iter.entries[iter.pos].key else savedKey;
      value := if direction.Forward? then iter.entries[iter.pos].value else savedValue;
      RankIsPlace(iter.entries, sequence, cur);
    }

    method Next()
      requires Ok() && valid
      modifies this`direction, this`valid, this`savedKey, this`cur, iter`pos
      ensures Ok() && Position() == ListNext(old(Contents()), old(Position()))
    {
      ghost var was := cur;
      if direction.Reverse? {
        direction := Forward;
        if !iter.Valid() {
          iter.SeekToFirst();
        } else {
          iter.Next();
        }
        assert iter.Valid();  // the entries of the current key still lie ahead, so the source's early return is dead
      } else {
        savedKey := iter.entries[iter.pos].key;
      }
      ScanFromCurrent(iter.cmp, iter.entries, sequence, iter.pos, cur);
      FindNextUserEntry(true, cur + 1);
      NextInList(iter.entries, sequence, was, if valid then cur else |iter.entries|);
    }

    /** Stands at the first live entry at lo or later; skip is kept in savedKey. */
    method FindNextUserEntry(skip: bool, ghost lo: nat)
      requires iter.Ok() && iter.Valid() && direction.Forward? && lo <= |iter.entries|
      requires ScanState(iter.cmp, iter.entries, sequence, lo, iter.pos, skip, savedKey)
      modifies this`valid, this`savedKey, this`cur, iter`pos
      ensures Ok()
      ensures if valid then lo <= cur && NoneLive(iter.entries, sequence, lo, cur)
              else NoneLive(iter.entries, sequence, lo, |iter.entries|)
    {
      var skipping := skip;
      while true
        invariant iter.Ok() && iter.Valid()
        invariant ScanState(iter.cmp, iter.entries, sequence, lo, iter.pos, skipping, savedKey)
        decreases |iter.entries| - iter.pos
      {
        var ikey := iter.entries[iter.pos];
        ghost var next := skipping;
        if ikey.sequence <= sequence {
          if ikey.ty.Deletion? {
            ScanPastDeletion(iter.cmp, iter.entries, sequence, lo, iter.pos, skipping, savedKey);
            savedKey := ikey.key;
            skipping := true;
          } else if skipping && iter.cmp(ikey.key, savedKey) <= 0 {
            ScanPastHidden(iter.cmp, iter.entries, sequence, lo, iter.pos, savedKey);
          } else {
            ScanFinds(iter.cmp, iter.entries, sequence, lo, iter.pos, skipping, savedKey);
            valid := true;
            cur := iter.pos;
            savedKey := [];
            return;
          }
        } else {
          ScanPastUnseen(iter.cmp, iter.entries, sequence, lo, iter.pos, skipping, savedKey);
        }
        iter.Next();
        if !iter.Valid() {
          break;
        }
      }
      savedKey := [];
      valid := false;
    }

    method Prev()
      requires Ok() && valid
      modifies this, iter`pos
      ensures Ok() && Position() == ListPrev(old(Contents()), old(Position()))
    {
      ghost var was := cur;
      if direction.Forward? {
        savedKey := iter.entries[iter.pos].key;
        while true
          invariant iter.Ok() && iter.Valid() && direction.Forward?
          invariant cur == was && Live(iter.entries, sequence, cur)
          invariant iter.pos <= cur && savedKey == iter.entries[cur].key
          invariant NoneLive(iter.entries, sequence, iter.pos, cur)
          decreases iter.pos
        {
          iter.Prev();
          if !iter.Valid() {
            valid := false;
            savedKey := [];
            savedValue := [];
            PrevInList(iter.entries, sequence, was, -1);
            return;
          }
          if iter.cmp(iter.entries[iter.pos].key, savedKey) < 0 {
            break;
          }
          SameKeyAsCurrent(iter.cmp, iter.entries, sequence, iter.pos, cur);
        }
        direction := Reverse;
      }
      FindPrevUserEntry(was);
      PrevInList(iter.entries, sequence, was, if valid then cur else -1);
    }

    /** Stands at the last live entry before hi. */
    method FindPrevUserEntry(ghost hi: nat)
      requires iter.Ok() && direction.Reverse?
      requires BackState(iter.entries, sequence, hi, iter.pos, false, 0)
      modifies this`valid, this`savedKey, this`savedValue, this`cur, this`direction, iter`pos
      ensures Ok()
      ensures if valid then cur < hi && NoneLive(iter.entries, sequence, cur + 1, hi)
              else NoneLive(iter.entries, sequence, 0, hi)
    {
      var valueType := Deletion;
      if iter.Valid() {
        valueType := ScanBack(hi);
      }
      if valueType.Deletion? {
        valid := false;
        savedKey := [];
        savedValue := [];
        direction := Forward;
      } else {
        valid := true;
      }
    }

    /** The backward loop: leaves the newest visible value of the last live key in the saved fields. */
    method ScanBack(ghost hi: nat) returns (valueType: ValueType)
      requires iter.Ok() && iter.Valid()
      requires BackState(iter.entries, sequence, hi, iter.pos, false, 0)
      modifies this`savedKey, this`savedValue, this`cur, iter`pos
      ensures iter.Ok()
      ensures valueType.Value? ==>
                && Live(iter.entries, sequence, cur) && iter.pos < cur < hi
                && AllUnseen(iter.entries, sequence, iter.pos + 1, cur)
                && NoneLive(iter.entries, sequence, cur + 1, hi)
                && savedKey == iter.entries[cur].key && savedValue == iter.entries[cur].value
      ensures valueType.Deletion? ==> NoneLive(iter.entries, sequence, 0, hi)
    {
      valueType := Deletion;
      while true
        invariant iter.Ok() && iter.Valid()
        invariant BackState(iter.entries, sequence, hi, iter.pos, valueType.Value?, cur)
        invariant valueType.Value? ==> savedKey == iter.entries[cur].key && savedValue == iter.entries[cur].value
        decreases iter.pos
      {
        var ikey := iter.entries[iter.pos];
        if ikey.sequence <= sequence {
          if !valueType.Deletion? && iter.cmp(ikey.key, savedKey) < 0 {
            break;
          }
          BackOverVisible(iter.cmp, iter.entries, sequence, hi, iter.pos, valueType.Value?, cur);
          valueType := ikey.ty;
          if valueType.Deletion? {
            savedKey, savedValue := [], [];
          } else {
            savedKey, savedValue := ikey.key, ikey.value;
          }
          cur := iter.pos;
        } else {
          BackOverUnseen(iter.entries, sequence, hi, iter.pos, valueType.Value?, cur);
        }
        iter.Prev();
        if !iter.Valid() {
          break;
        }
      }
      if valueType.Value? {
        BackFinds(iter.cmp, iter.entries, sequence, hi, iter.pos, cur);
      }
    }

    method Seek(target: Bytes)
      requires Ok()
      modifies this`direction, this`valid, this`savedKey, this`savedValue, this`cur, iter`pos
      ensures Ok() && IsListSeek(iter.cmp, Contents(), target, Position())
    {
      direction := Forward;
      savedValue := [];
      savedKey := [];
      var seekKey := ParsedInternalKey(target, sequence, VALUE_TYPE_FOR_SEEK);
      iter.Seek(seekKey);
      ghost var lo := if iter.Valid() then iter.pos else |iter.entries|;
      if iter.Valid() {
        SeekStartsScan(iter.cmp, iter.entries, sequence, seekKey, iter.pos);
        FindNextUserEntry(false, lo);
      } else {
        valid := false;
      }
      SeekInList(iter.cmp, iter.entries, sequence, target, lo, if valid then cur else |iter.entries|);
    }

    method SeekToFirst()
      requires Ok()
      modifies this`direction, this`valid, this`savedKey, this`savedValue, this`cur, iter`pos
      ensures Ok() && Position() == ListFirst(Contents())
    {
      direction := Forward;
      savedValue := [];
      iter.SeekToFirst();
      if iter.Valid() {
        FindNextUserEntry(false, 0);
      } else {
        valid := false;
      }
      FirstInList(iter.entries, sequence, if valid then cur else |iter.entries|);
    }

    /** A write newer than the snapshot changes nothing the iterator shows, wherever it lands. */
    method NewerWriteArrives(e: Entry, at: nat)
      requires Ok() && e.sequence > sequence
      requires at <= |iter.entries| && Sorted(iter.cmp, Inserted(iter.entries, at, e))
      modifies this`cur, iter
      ensures Ok() && Contents() == old(Contents()) && Position() == old(Position())
    {
      ghost var before := iter.entries;
      InsertKeepsList(before, sequence, at, e, |before|);
      if valid {
        InsertKeepsList(before, sequence, at, e, cur);
        InsertKeepsLive(before, sequence, at, e, cur);
      }
      iter.Insert(e, at);
      if valid && at <= cur {
        cur := cur + 1;
      }
    }

    method SeekToLast()
      requires Ok()
      modifies this`direction, this`valid, this`savedKey, this`savedValue, this`cur, iter`pos
      ensures Ok() && Position() == ListLast(Contents())
    {
      direction := Reverse;
      savedValue := [];
      iter.SeekToLast();
      FindPrevUserEntry(|iter.entries|);
      LastInList(iter.entries, sequence, if valid then cur else -1);
    }
  }

  lemma SameKeyAsCurrent(cmp: Comparator, entries: seq<Entry>, snapshot: nat, i: nat, cur: nat)
    requires IsTotalOrder(cmp) && Sorted(cmp, entries)
    requires i < cur && Live(entries, snapshot, cur) && cmp(entries[i].key, entries[cur].key) >= 0
    ensures !Live(entries, snapshot, i)
  {
    assert Before(cmp, entries[i], entries[cur]);
  }

  lemma SeekStartsScan(
      cmp: Comparator, entries: seq<Entry>, snapshot: nat, target: ParsedInternalKey, pos: nat)
    requires IsTotalOrder(cmp) && Sorted(cmp, entries) && pos < |entries|
    requires target.sequence == snapshot && target.ty.Value?
    requires forall i | 0 <= i < pos :: Precedes(cmp, KeyOf(entries[i]), target)
    requires !Precedes(cmp, KeyOf(entries[pos]), target)
    ensures ScanState(cmp, entries, snapshot, pos, pos, false, [])
  {
    forall j, i | 0 <= j < pos <= i < |entries| && entries[j].sequence <= snapshot
      ensures entries[j].key != entries[i].key
    {
      assert Precedes(cmp, KeyOf(entries[j]), target);
      if i > pos {
        assert Before(cmp, entries[pos], entries[i]);
        assert Chain(cmp, entries[j].key, entries[pos].key, entries[i].key);
        assert Chain(cmp, entries[j].key, target.userKey, entries[pos].key);
      }
    }
  }

  lemma SeekInList(
      cmp: Comparator, entries: seq<Entry>, snapshot: nat, target: Bytes, lo: nat, i: nat)
    requires IsTotalOrder(cmp) && Sorted(cmp, entries) && lo <= i <= |entries|
    requires forall j | 0 <= j < lo :: Precedes(cmp, KeyOf(entries[j]), ParsedInternalKey(target, snapshot, Value))
    requires i < |entries| ==> lo < |entries| && !Precedes(cmp, KeyOf(entries[lo]), ParsedInternalKey(target, snapshot, Value))
    requires NoneLive(entries, snapshot, lo, i) && (i < |entries| ==> Live(entries, snapshot, i))
    ensures IsListSeek(cmp, LiveList(entries, snapshot), target, Place(entries, snapshot, i))
  {
    LiveUpToSkips(entries, snapshot, lo, i);
    LiveUpToPrefix(entries, snapshot, lo, |entries|);
    var head := LiveUpTo(entries, snapshot, lo);
    forall q | 0 <= q < |head| ensures cmp(head[q].key, target) < 0 {
      assert Pair(head[q].key, head[q].value) in head;
      LivePairs(entries, snapshot, lo, head[q].key, head[q].value);
      var j :| 0 <= j < lo && Live(entries, snapshot, j) && entries[j].key == head[q].key;
      assert Precedes(cmp, KeyOf(entries[j]), ParsedInternalKey(target, snapshot, Value));
    }
    if i < |entries| {
      RankIsPlace(entries, snapshot, i);
      if i > lo {
        assert Before(cmp, entries[lo], entries[i]);
        assert Chain(cmp, entries[lo].key, entries[i].key, target);
      }
    }
  }
}
